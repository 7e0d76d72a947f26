# Bollinger Forest: a Dafny model

This project models the core of *bollinger-forest*, a back-testing tool for two
Bollinger-band trading strategies run over daily price bars.

- **Classical strategy.** A long-only strategy. It buys with all its cash when the
  close is at or below the lower track. It sells everything when the close is at or
  above the upper track.
- **Enhanced strategy.**
  - A feature table is built from the bars: OHLCV, the three-bar weighted moving
    average (WMA3) at lags 0 to 5, and the next-day WMA3 change as the target.
    Rows with any undefined cell are dropped.
  - The table is split at a date key into training and test rows.
  - A regressor trained on the training rows predicts the WMA3 change on each test
    row.
  - A flat/long/short state machine then trades on the predicted next WMA3. It uses
    the Bollinger tracks for entries and take-profits, and a 3·ATR stop-loss.
- **Indicator library.** WMA3, the rolling mean and Bollinger tracks, the true range
  and average true range (ATR), and the maximum drawdown of a value series.

How the model represents the program:

- Data-frame columns are `seq<Option<real>>`. `None` is pandas' NaN. A comparison
  with `None` is false, as an IEEE comparison with NaN is.
- Prices are `real`, so float rounding is not represented.
- A date index is an integer `key` that orders the bars.
- Each per-bar loop is two things: a pure transition (`Step`) folded over the bars
  (`Simulate`), and an imperative loop (`SimulateLoop`, `RunLoop`) proved equal to
  the fold.
- A Python exception becomes an `Err` of `Market.Error`:
  - `NoTestData` is the `ValueError` raised when the test side is empty;
  - `DivisionByZero` is the `ZeroDivisionError` of an entry at a zero close;
  - `PredictionLengthMismatch` is the pandas failure when the prediction column
    does not fit the test rows.
- The regressor is an arbitrary function parameter, `Enhanced.Regressor`.
- The rolling standard deviation is an input column, `std`.

Modules: `Wrappers` (Option, Result), `Series` (columns, sums, means, running max),
`Indicators`, `Market` (bars, errors), `Features` (the feature table), `Enhanced`,
`Classical`.

## Model

| member | source | states |
|---|---|---|
| Indicators.Wma3 | src/bollinger_forest/indicators.py:27-29 | one value per input row; what each value is (undefined on two rows, then the 1:2:3-weighted window mean) is `Indicators.Wma3Formula`, and its bounds `Indicators.Wma3WithinWindow` |
| Indicators.Wma3Formula | src/bollinger_forest/indicators.py:27-29 | WMA3 is undefined on the first two rows, and afterwards equals (x[t−2] + 2·x[t−1] + 3·x[t]) / 6 |
| Indicators.Wma3WithinWindow | src/bollinger_forest/indicators.py:27-29 | WMA3 lies within any bounds of its three-value window, because the weights are positive |
| Indicators.Wma3OfConstantWindow | src/bollinger_forest/indicators.py:27-29 | on a window of three equal values c, WMA3 is c |
| Indicators.RollingMean | src/bollinger_forest/indicators.py:49 | one value per input row; on a defined series it is defined exactly from row d−1 on and is the window mean there (`Indicators.RollingMeanOfSeries`) |
| Indicators.RollingMeanOfSeries | src/bollinger_forest/indicators.py:49 | the d-row moving average is defined exactly from row d−1 on, and there it is the mean of the last d closes |
| Indicators.RollingMeanWithinWindow | src/bollinger_forest/indicators.py:49 | the moving average lies within any bounds of its window |
| Indicators.BollingerBands | src/bollinger_forest/indicators.py:48-52 | four columns of one value per row; where the tracks are defined and how they sit around the MA is `Indicators.BandsShape` |
| Indicators.BandsShape | src/bollinger_forest/indicators.py:49-52 | a track is defined exactly where both MA and STD are; upper = MA + k·STD and lower = MA − k·STD, so the band width is 2k·STD; lower ≤ MA ≤ upper when k ≥ 0 and STD ≥ 0 |
| Indicators.MaxSkipUndefined | src/bollinger_forest/indicators.py:80-81 | the row maximum is undefined only when every cell is; otherwise it bounds every defined cell and is one of them |
| Indicators.TrueRange | src/bollinger_forest/indicators.py:76-81 | one value per row; its closed form is `Indicators.TrueRangeFormula` and its lower bound `Indicators.TrueRangeAtLeastSpan` |
| Indicators.TrueRangeFormula | src/bollinger_forest/indicators.py:76-81 | the first row's true range is high − low; later rows take the max of high − low, \|high − previous close\| and \|low − previous close\| |
| Indicators.TrueRangeAtLeastSpan | src/bollinger_forest/indicators.py:76-81 | the true range is defined, at least high − low, and so non-negative when high ≥ low |
| Indicators.Atr | src/bollinger_forest/indicators.py:76-83 | one value per row; where it is defined, what mean it is and its sign are `Indicators.AtrWindowMean` and `Indicators.AtrWarmup` |
| Indicators.AtrWarmup | src/bollinger_forest/indicators.py:76-83 | the n-row ATR is defined exactly from row n−1 on, and it is non-negative when every bar has low ≤ high |
| Indicators.AtrWindowMean | src/bollinger_forest/indicators.py:83 | from row n−1 on, the ATR is the mean of the last n true ranges, all of which are defined; before that it is undefined |
| Indicators.Drawdowns | src/bollinger_forest/indicators.py:99-100 | one drawdown per value; each lies in (−1, 0] on a positive series (`Indicators.DrawdownRange`) and is 0 wherever the value equals its running maximum (`Indicators.DrawdownAtPeak`) |
| Indicators.MaxDrawdown | src/bollinger_forest/indicators.py:99-101 | the result is undefined exactly on an empty series; otherwise it is at most 0 |
| Indicators.DrawdownRange | src/bollinger_forest/indicators.py:99-101 | on a strictly positive series each value/running-peak − 1 lies in (−1, 0], and the result lies in (−100, 0] |
| Indicators.NonDecreasingHasNoDrawdown | src/bollinger_forest/indicators.py:99-101 | a non-decreasing series has a maximum drawdown of exactly 0 |
| Series.CumMax | src/bollinger_forest/indicators.py:99 | entry t of the running maximum bounds v[0..t] and is one of those values |
| Features.FeatureColumns | src/bollinger_forest/models/enhanced.py:63-67 | the feature list is exactly Open, High, Low, Close, Volume, WMA_3_lag_0 … WMA_3_lag_5, in that order |
| Features.PrepareFeatures | src/bollinger_forest/models/enhanced.py:58-70 | every processed row has six lags, and its feature vector has one entry per feature column |
| Features.FeatureVector | src/bollinger_forest/models/enhanced.py:63-67 | a row with six lags gives one entry per feature column, and entry i is the row's cell under the i-th feature column name: the vector is the row selected by the feature names, in their order |
| Features.Frame | src/bollinger_forest/models/enhanced.py:58-69 | one frame row per bar; what each cell of a kept row holds is `Features.KeptRowLags` and `Features.KeptRowIndicators` |
| Features.DropUndefined | src/bollinger_forest/models/enhanced.py:70 | keeps at most the rows it is given, each with six lags; which rows it keeps, in which order, is `Features.DropUndefinedKeepsCompleteRows` |
| Features.DropUndefinedKeepsCompleteRows | src/bollinger_forest/models/enhanced.py:70 | the kept rows are exactly the complete rows, in their original order: kept row j is the j-th complete row, and no complete row is dropped |
| Features.CompleteIff | src/bollinger_forest/models/enhanced.py:58-70 | a frame row survives exactly when it is at or past row 19 (band and ATR warm-up), is not the last row (the target needs the next WMA3), and has a defined STD |
| Features.KeptRowPosition | src/bollinger_forest/models/enhanced.py:58-70 | kept row j comes from a frame position t with 19 ≤ t < |bars|−1 whose frame row is complete; it holds bar t |
| Features.KeptRowLags | src/bollinger_forest/models/enhanced.py:59-69 | a kept row from frame position t has lag i = WMA3[t−i] for i < 6, WMA3 = WMA3[t], and target = WMA3[t+1] − WMA3[t] |
| Features.KeptRowIndicators | src/bollinger_forest/models/enhanced.py:59-61 | a kept row from frame position t has STD = std[t], MA = the 20-row mean of the closes at t, tracks MA ± 3·STD, and ATR = the 20-row ATR at t |
| Enhanced.Split | src/bollinger_forest/models/enhanced.py:98-102 | the split fails with the empty-test error exactly when every row's key is before the split; on success the test side is non-empty |
| Enhanced.TestRows | src/bollinger_forest/models/enhanced.py:99 | the test rows all have key ≥ split, and there are no more of them than rows |
| Enhanced.TestRowsEmptyIff | src/bollinger_forest/models/enhanced.py:99-102 | there are no test rows exactly when every key is before the split |
| Enhanced.TrainRows | src/bollinger_forest/models/enhanced.py:98 | the training rows all have key < split |
| Enhanced.SplitKeepsEveryRow | src/bollinger_forest/models/enhanced.py:98-99 | together, the training and test rows are a permutation of the processed rows |
| Enhanced.SplitIsPrefixAndSuffix | src/bollinger_forest/models/enhanced.py:98-99 | on ascending keys, training rows followed by test rows give back the processed rows in order |
| Enhanced.TrainPrecedesTest | src/bollinger_forest/models/enhanced.py:96-99 | on ascending bars, the processed rows are the training rows followed by the test rows |
| Enhanced.InitialState | src/bollinger_forest/models/enhanced.py:112-115 | the run starts flat, with the capital in cash, no shares and entry price 0; it satisfies the invariant and is worth the capital |
| Enhanced.Decide | src/bollinger_forest/models/enhanced.py:127-149 | entries fire only from flat, a long exit only from long and a short exit only from short; from flat the bar holds exactly when lower < pred < upper. The exact firing rules are `Enhanced.LongEntry`, `ShortEntry`, `LongExit`, `ShortExit` |
| Enhanced.Step | src/bollinger_forest/models/enhanced.py:127-149 | every transition keeps "position ∈ {−1, 0, 1}, and no shares when flat"; it fails, with the division error, exactly on an entry at a zero close |
| Enhanced.LongEntry | src/bollinger_forest/models/enhanced.py:127-154 | a long entry fires exactly from flat with pred ≤ lower; it sets entry price = close, shares = cash / close and cash = 0, and the bar is worth the cash held before |
| Enhanced.ShortEntry | src/bollinger_forest/models/enhanced.py:132-156 | a short entry fires exactly from flat when a long entry does not and pred ≥ upper; shares = capital / close whatever the cash; cash = capital + shares·close; the bar is worth the capital |
| Enhanced.LongExit | src/bollinger_forest/models/enhanced.py:137-154 | from long, the position closes exactly when pred < entry − 3·ATR or pred > upper; then cash = shares·close, shares = 0 and the bar's value is unchanged; otherwise the state is unchanged |
| Enhanced.ShortExit | src/bollinger_forest/models/enhanced.py:143-156 | from short, the position closes exactly when pred > entry + 3·ATR or pred < lower; cash drops by shares·close, shares = 0 and the bar's value is unchanged; otherwise the state is unchanged |
| Enhanced.StepKeepsBarValue | src/bollinger_forest/models/enhanced.py:127-156 | every transition except a short entry leaves the bar's value as it was before the transition |
| Enhanced.Value | src/bollinger_forest/models/enhanced.py:151-156 | a flat book is worth its cash; with non-negative shares and close, a long book is worth at least 0 and a short book at most its cash. That the value is what closing the position at the close would leave is `Enhanced.LongExit` / `ShortExit` |
| Enhanced.Simulate | src/bollinger_forest/models/enhanced.py:118-158 | a successful run ends in a state satisfying the invariant, with one value per test bar; its only failure is the division error |
| Enhanced.SimulatePrefix | src/bollinger_forest/models/enhanced.py:118-158 | the run is causal: running the first n bars gives the first n values |
| Enhanced.BarValue | src/bollinger_forest/models/enhanced.py:118-158 | bar i's value is the valuation, at bar i's close, of the state produced by bar i's single transition from the state after bar i−1 |
| Enhanced.EntryBarValues | src/bollinger_forest/models/enhanced.py:127-158 | on a long-entry bar the value repeats the previous bar's value (the capital on the first bar); on a short-entry bar it is the capital |
| Enhanced.FirstValueIsCapital | src/bollinger_forest/models/enhanced.py:112-158 | the first bar is worth the capital, whichever transition it fires |
| Enhanced.SimulateLoop | src/bollinger_forest/models/enhanced.py:112-158 | the imperative bar loop fails exactly when the fold does, and otherwise returns the same values |
| Enhanced.ApplyBar | src/bollinger_forest/models/enhanced.py:127-149 | the if/elif chain, written as mutations of the state, computes the same transition as `Step` |
| Enhanced.FailsExactlyAtAStep | src/bollinger_forest/models/enhanced.py:118-158 | the run fails exactly when some bar's transition fails from the state the earlier bars left |
| Enhanced.FailureNeedsZeroClose | src/bollinger_forest/models/enhanced.py:127-136 | a run can fail only if some test bar has a zero close |
| Enhanced.FeatureMatrix | src/bollinger_forest/models/enhanced.py:104-108 | one input row per processed row; each row with six lags has one entry per feature column, and entry (j, i) is row j's cell under the i-th feature column name |
| Enhanced.Targets | src/bollinger_forest/models/enhanced.py:105 | one target per processed row, and entry j is row j's WMA3 change target |
| Enhanced.Quotes | src/bollinger_forest/models/enhanced.py:118-125 | bar j of the loop reads the predicted next WMA3, the tracks, the ATR and the close of test row j |
| Enhanced.Trade | src/bollinger_forest/models/enhanced.py:109-158 | predicted next WMA3 = WMA3 + predicted change on every test row; the run fails only with the division error and only on a zero test close; with no zero close it succeeds; on success there is one portfolio value per test row and they are the fold's |
| Enhanced.RunOnRows | src/bollinger_forest/models/enhanced.py:98-161 | on the processed rows: the empty-test error exactly when every key is before the split; the length error exactly when there are test rows and the regressor returns a different number of predictions; the division error only with a zero test close; success whenever none of these happens, and then the trading half runs on the test rows with the regressor's predictions from the training features and targets |
| Enhanced.Run | src/bollinger_forest/models/enhanced.py:96-161 | on the bars: the empty-test error exactly when no processed row is at or after the split; with test rows, one prediction per test row and no zero test close the run succeeds; on success the test rows are the rows at or after the split, with one prediction, one next WMA3 and one portfolio value each |
| Enhanced.RunStartsAtCapital | src/bollinger_forest/models/enhanced.py:112-158 | a successful run's value series starts at the capital |
| Classical.Signals | src/bollinger_forest/models/classical.py:57-68 | bar t of the loop reads bar t's close and the tracks of the bands computed over the given bars; the tracks are undefined during the warm-up (`Classical.WarmupTracksUndefined`) |
| Classical.InitialState | src/bollinger_forest/models/classical.py:59-62 | the run starts flat, with the capital in cash and no shares; it satisfies the invariant and is worth the capital |
| Classical.Step | src/bollinger_forest/models/classical.py:70-77 | every transition keeps "flat with no shares, or long with no cash" (so the strategy never shorts); it fails exactly on an entry at a zero close |
| Classical.Entry | src/bollinger_forest/models/classical.py:70-79 | from flat the position opens exactly when the lower track is defined and close ≤ lower; shares = cash / close and cash = 0, so the bar is worth the pre-entry cash; otherwise nothing changes |
| Classical.Exit | src/bollinger_forest/models/classical.py:74-79 | from long the position closes exactly when the upper track is defined and close ≥ upper; cash = shares·close and shares = 0, so the bar's value is unchanged; otherwise nothing changes |
| Classical.StepKeepsBarValue | src/bollinger_forest/models/classical.py:70-79 | no transition changes the value of the bar it fires on |
| Classical.Value | src/bollinger_forest/models/classical.py:79 | under the invariant a flat book is worth its cash and a long book its shares at the close; no transition changes it on its own bar (`Classical.StepKeepsBarValue`) |
| Classical.Simulate | src/bollinger_forest/models/classical.py:64-80 | a successful run ends in a state satisfying the invariant, with one value per bar; its only failure is the division error |
| Classical.Run | src/bollinger_forest/models/classical.py:56-83 | one value per input bar; the only failure is the division error, it needs a zero close, and with no zero close the run succeeds |
| Classical.SimulatePrefix | src/bollinger_forest/models/classical.py:64-80 | the run is causal: running the first n bars gives the first n values |
| Classical.BarValue | src/bollinger_forest/models/classical.py:64-80 | bar i's value is cash + shares·close of the state after bar i's transition |
| Classical.WarmupTracksUndefined | src/bollinger_forest/models/classical.py:57 | the bands are recomputed over the given bars, so both tracks are undefined on the first d−1 bars |
| Classical.WarmupHoldsCapital | src/bollinger_forest/models/classical.py:57-80 | no trade can happen during the warm-up, so the first d−1 values equal the capital |
| Classical.NoSignalNoTrade | src/bollinger_forest/models/classical.py:59-80 | if the close never reaches the lower track, the run succeeds and every value is the capital |
| Classical.ConstantCloseKeepsValue | src/bollinger_forest/models/classical.py:64-80 | while the close stays at c, every bar is worth what the starting state is worth at c, and so is the final state |
| Classical.ConstantCloseHoldsCapital | src/bollinger_forest/models/classical.py:56-83 | on a constant non-zero close the run succeeds and every one of its values is the capital, whatever trades the bands trigger |
| Classical.ConstantSeriesEntersAfterWarmup | src/bollinger_forest/models/classical.py:57-80 | on a constant non-zero close with zero STD, the strategy is long after bar d−1, and the first d values are all the capital |
| Classical.RunStartsAtCapital | src/bollinger_forest/models/classical.py:59-80 | the first bar is worth the capital whether or not it buys |
| Classical.RunLoop | src/bollinger_forest/models/classical.py:59-82 | the imperative bar loop fails exactly when the fold does, and otherwise returns the same values |
| Classical.ApplyBar | src/bollinger_forest/models/classical.py:70-77 | the if/elif chain, written as mutations of the state, computes the same transition as `Step` |
| Classical.FailsExactlyAtAStep | src/bollinger_forest/models/classical.py:64-80 | the run fails exactly when some bar's transition fails from the state the earlier bars left |
| Classical.FailureNeedsZeroClose | src/bollinger_forest/models/classical.py:70-73 | a run can fail only if some bar has a zero close |

### Notable behaviours of the code

- **Entry and exit comparisons.** The class docstring says the classical strategy
  buys when the close "falls below" the lower track and sells when it "rises
  above" the upper track (`classical.py:19-20`). The code compares with `<=` and
  `>=` (`classical.py:70`, `74`). The model follows the code (`Classical.Entry`,
  `Classical.Exit`).
- **First true range.** The row-wise maximum skips the missing previous-close terms
  (`indicators.py:80-81`), so the first true range is high − low and is defined.
  The ATR is therefore defined from row n−1, not row n.
- **Constant series.** On a constant close with zero STD, the lower track equals the
  close, and `close <= lower` holds. The classical strategy therefore buys on bar
  d−1, and afterwards it sells and buys again whenever the tracks are met. None of
  these trades changes the value at that close, so on a constant non-zero close
  every value of the series is the capital
  (`Classical.ConstantSeriesEntersAfterWarmup`, `Classical.ConstantCloseHoldsCapital`).
- **Short entry.** A short entry sells capital / close shares. Its cash becomes the
  capital plus the proceeds, whatever cash was held before, so the entry bar is
  worth exactly the capital. Any profit from an earlier round trip drops out of the
  value series at that point (`Enhanced.ShortEntry`, `Enhanced.EntryBarValues`).

## Left out

- The random-forest regressor (`enhanced.py:37-39`, `106-109`) is an opaque library
  call. `Enhanced.Run` takes any function in its place, so a fit that fails on an
  empty training set is not modelled.
- The rolling sample standard deviation (`indicators.py:50`) needs a square root and
  float statistics. It is an input column, `std`.
- The Sharpe ratio (`indicators.py:104-122`) is not part of this model.
- IEEE floats: rounding, infinities and NaN propagation are not represented. Prices
  are exact reals, and NaN is an undefined cell.
- Indicators.MaxDrawdown: requires the first value to be positive, so the running
  peak is never zero. A zero peak gives an IEEE infinity or NaN in the source,
  which the model does not represent. The strategies' value series start at the
  capital (`Enhanced.RunStartsAtCapital`, `Classical.RunStartsAtCapital`), so a
  positive capital meets the requirement.
- Date strings are integer keys. `Market.Ascending` states the sorted index that the
  downloaded data has.
- The classical strategy is modelled on the slice it is given. Which slice the
  command line passes it, and `cli.py` and `data.py` generally, are not part of
  this model: argument parsing, downloads, caching, plotting and reports.
- Object construction, data-frame copying and column bookkeeping are not modelled,
  other than the output columns `Outcome` carries.
