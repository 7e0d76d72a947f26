/** The enhanced strategy's feature table: indicator columns, six lags of WMA3, the
    one-step-ahead WMA3 change as target, and the removal of incomplete rows. */
module Features {
  import opened Wrappers
  import opened Series
  import opened Indicators
  import opened Market

  /** Band window d, band multiplier k and ATR window n used by the enhanced strategy. */
  const BandWindow: nat := 20
  const BandWidth: real := 3.0
  const AtrWindow: nat := 20

  /** Number of WMA3 lags fed to the regressor (lags 0 to 5). */
  const LagCount: nat := 6

  /** A row of the indicator frame before incomplete rows are dropped. */
  datatype FrameRow = FrameRow(
    bar: Bar,
    wma: Option<real>,
    ma: Option<real>,
    std: Option<real>,
    upper: Option<real>,
    lower: Option<real>,
    atr: Option<real>,
    lags: seq<Option<real>>,
    target: Option<real>)

  /** A row that survived the removal of incomplete rows: every cell is defined. */
  datatype FeatureRow = FeatureRow(
    bar: Bar,
    wma: real,
    ma: real,
    std: real,
    upper: real,
    lower: real,
    atr: real,
    lags: seq<real>,
    target: real)

  // ---------------------------------------------------------------- column names

  /** Name of the column holding WMA3 shifted down by `i` rows (a one-digit lag). */
  function LagName(i: nat): string
    requires i < 10
  {
    "WMA_3_lag_" + ["0123456789"[i]]
  }

  function LagColumns(n: nat): seq<string>
    requires n <= 10
  {
    if n == 0 then [] else LagColumns(n - 1) + [LagName(n - 1)]
  }

  /** The regressor's input columns: OHLCV, then WMA3 lags 0 to 5. */
  function FeatureColumns(): (cols: seq<string>)
    ensures cols == ["Open", "High", "Low", "Close", "Volume",
                     "WMA_3_lag_0", "WMA_3_lag_1", "WMA_3_lag_2",
                     "WMA_3_lag_3", "WMA_3_lag_4", "WMA_3_lag_5"]
  {
    SixLagColumns();
    ["Open", "High", "Low", "Close", "Volume"] + LagColumns(LagCount)
  }

  lemma SixLagColumns()
    ensures LagColumns(LagCount) == ["WMA_3_lag_0", "WMA_3_lag_1", "WMA_3_lag_2",
                                     "WMA_3_lag_3", "WMA_3_lag_4", "WMA_3_lag_5"]
  {
    SixLagNames();
    LagColumnsUnfold();
  }

  lemma SixLagNames()
    ensures LagName(0) == "WMA_3_lag_0" && LagName(1) == "WMA_3_lag_1"
    ensures LagName(2) == "WMA_3_lag_2" && LagName(3) == "WMA_3_lag_3"
    ensures LagName(4) == "WMA_3_lag_4" && LagName(5) == "WMA_3_lag_5"
  {
  }

  lemma LagColumnsUnfold()
    ensures LagColumns(LagCount) ==
      [LagName(0), LagName(1), LagName(2), LagName(3), LagName(4), LagName(5)]
  {
    assert LagColumns(1) == [LagName(0)];
    assert LagColumns(2) == [LagName(0), LagName(1)];
    assert LagColumns(3) == [LagName(0), LagName(1), LagName(2)];
    assert LagColumns(4) == [LagName(0), LagName(1), LagName(2), LagName(3)];
    assert LagColumns(5) == [LagName(0), LagName(1), LagName(2), LagName(3), LagName(4)];
  }

  /** A row's input vector for the regressor: the row selected by the feature column
      names, so entry i is the row's cell under the i-th name. */
  function FeatureVector(r: FeatureRow): (v: seq<real>)
    ensures |v| == 5 + |r.lags|
    ensures |r.lags| == LagCount ==> |v| == |FeatureColumns()|
    ensures |r.lags| == LagCount ==>
      forall i :: 0 <= i < |v| ==> Cell(r, FeatureColumns()[i]) == Some(v[i])
  {
    var v := [r.bar.open, r.bar.high, r.bar.low, r.bar.close, r.bar.volume] + r.lags;
    if |r.lags| == LagCount then OhlcvThenLagsByName(r, v); v else v
  }

  /** The cell a processed row holds under a column name, as selecting the feature
      columns by name reads it; None for a name the row has no column for. */
  function Cell(r: FeatureRow, name: string): Option<real> {
    if name == "Open" then Some(r.bar.open)
    else if name == "High" then Some(r.bar.high)
    else if name == "Low" then Some(r.bar.low)
    else if name == "Close" then Some(r.bar.close)
    else if name == "Volume" then Some(r.bar.volume)
    else if |name| == 11 && name[..10] == "WMA_3_lag_" && '0' <= name[10] <= '9'
      && name[10] as int - '0' as int < |r.lags|
    then Some(r.lags[name[10] as int - '0' as int])
    else None
  }

  /** OHLCV followed by the six lags is the row read column by column in the order
      of `FeatureColumns()`. */
  lemma OhlcvThenLagsByName(r: FeatureRow, v: seq<real>)
    requires |r.lags| == LagCount
    requires v == [r.bar.open, r.bar.high, r.bar.low, r.bar.close, r.bar.volume] + r.lags
    ensures |v| == |FeatureColumns()|
    ensures forall i :: 0 <= i < |v| ==> Cell(r, FeatureColumns()[i]) == Some(v[i])
  {
    var cols := FeatureColumns();
    forall i | 0 <= i < |v| ensures Cell(r, cols[i]) == Some(v[i]) {
      if i >= 5 {
        LagCell(r, i - 5);
        assert v[i] == r.lags[i - 5];
      }
    }
  }

  lemma LagCell(r: FeatureRow, i: nat)
    requires |r.lags| == LagCount && i < LagCount
    ensures Cell(r, FeatureColumns()[5 + i]) == Some(r.lags[i])
  {
    var name := FeatureColumns()[5 + i];
    assert name == LagName(i) by { SixLagNames(); }
    assert name[..10] == "WMA_3_lag_";
    assert name[10] == "0123456789"[i];
  }

  // ---------------------------------------------------------------- the frame

  /** The indicator frame: WMA3 of the closes, bands (d = 20, k = 3) around the close's
      rolling mean with the given STD column, ATR (n = 20), WMA3 shifted down by 0..5
      rows, and the next row's WMA3 minus this row's. */
  function Frame(bars: seq<Bar>, std: Column): (rows: seq<FrameRow>)
    requires |std| == |bars|
    ensures |rows| == |bars|
  {
    var close := Closes(bars);
    var wma := Wma3(close);
    var bands := BollingerBands(close, std, BandWindow, BandWidth);
    var atr := Atr(Highs(bars), Lows(bars), close, AtrWindow);
    var next := Shift(wma, -1);
    seq(|bars|, t requires 0 <= t < |bars| =>
      FrameRow(bars[t], wma[t], bands.ma[t], bands.std[t], bands.upper[t], bands.lower[t], atr[t],
        seq(LagCount, i requires 0 <= i < LagCount => Shift(wma, i)[t]),
        Minus(next[t], wma[t])))
  }

  /** No column of the row is undefined. */
  predicate Complete(r: FrameRow) {
    && r.wma.Some? && r.ma.Some? && r.std.Some? && r.upper.Some? && r.lower.Some?
    && r.atr.Some? && |r.lags| == LagCount && AllDefined(r.lags) && r.target.Some?
  }

  function Fill(r: FrameRow): FeatureRow
    requires Complete(r)
  {
    FeatureRow(r.bar, r.wma.value, r.ma.value, r.std.value, r.upper.value, r.lower.value,
      r.atr.value, Values(r.lags), r.target.value)
  }

  /** Drops every row with an undefined cell, keeping the others in order. */
  function DropUndefined(rows: seq<FrameRow>): (kept: seq<FeatureRow>)
    ensures |kept| <= |rows|
    ensures forall j :: 0 <= j < |kept| ==> |kept[j].lags| == LagCount
  {
    if |rows| == 0 then []
    else
      var last := rows[|rows| - 1];
      DropUndefined(rows[..|rows| - 1]) + (if Complete(last) then [Fill(last)] else [])
  }

  /** Positions of the complete rows, in order. */
  function KeptIndices(rows: seq<FrameRow>): seq<nat> {
    if |rows| == 0 then []
    else KeptIndices(rows[..|rows| - 1]) + (if Complete(rows[|rows| - 1]) then [|rows| - 1] else [])
  }

  /** Dropping undefined rows keeps exactly the complete rows, in their order: the
      j-th kept row is the filled j-th complete row. */
  lemma {:induction false} DropUndefinedKeepsCompleteRows(rows: seq<FrameRow>)
    ensures var kept, idx := DropUndefined(rows), KeptIndices(rows);
      && |kept| == |idx|
      && (forall j :: 0 <= j < |idx| ==>
            idx[j] < |rows| && Complete(rows[idx[j]]) && kept[j] == Fill(rows[idx[j]]))
      && (forall j, k :: 0 <= j < k < |idx| ==> idx[j] < idx[k])
      && (forall t :: 0 <= t < |rows| && Complete(rows[t]) ==> t in idx)
  {
    if |rows| > 0 {
      var n := |rows| - 1;
      var prefix := rows[..n];
      DropUndefinedKeepsCompleteRows(prefix);
      forall t | 0 <= t < n && Complete(rows[t]) ensures t in KeptIndices(rows) {
        assert prefix[t] == rows[t];
      }
      forall j | 0 <= j < |KeptIndices(prefix)|
        ensures KeptIndices(prefix)[j] < n
        ensures rows[KeptIndices(prefix)[j]] == prefix[KeptIndices(prefix)[j]]
      {
      }
    }
  }

  /** The processed frame and the feature column list. */
  function PrepareFeatures(bars: seq<Bar>, std: Column): (r: (seq<FeatureRow>, seq<string>))
    requires |std| == |bars|
    ensures forall j :: 0 <= j < |r.0| ==>
              |r.0[j].lags| == LagCount && |FeatureVector(r.0[j])| == |r.1|
  {
    (DropUndefined(Frame(bars, std)), FeatureColumns())
  }

  // ---------------------------------------------------------------- which rows survive

  /** A frame row is complete exactly when it lies past the 20-row warm-up of the
      bands and the ATR, is not the last row (whose target needs the next WMA3), and
      has a defined STD. The WMA3 lags need only 7 rows, so they never decide it. */
  lemma CompleteIff(bars: seq<Bar>, std: Column, t: int)
    requires |std| == |bars| && 0 <= t < |bars|
    ensures Complete(Frame(bars, std)[t]) <==>
              BandWindow - 1 <= t < |bars| - 1 && std[t].Some?
  {
    var close := Closes(bars);
    var wma := Wma3(close);
    var r := Frame(bars, std)[t];
    RollingMeanOfSeries(close, BandWindow, t);
    BandsShape(close, std, BandWindow, BandWidth, t);
    AtrWarmup(Highs(bars), Lows(bars), close, AtrWindow, t);
    Wma3Formula(close, t);
    if t + 1 < |bars| {
      Wma3Formula(close, t + 1);
    }
    if BandWindow - 1 <= t {
      forall i | 0 <= i < LagCount ensures r.lags[i].Some? {
        Wma3Formula(close, t - i);
      }
    }
  }

  /** Kept row j comes from a complete frame position t = KeptIndices[j], which lies
      past the warm-up and before the last row. */
  lemma KeptRowPosition(bars: seq<Bar>, std: Column, j: int)
    requires |std| == |bars|
    requires 0 <= j < |DropUndefined(Frame(bars, std))|
    ensures |KeptIndices(Frame(bars, std))| == |DropUndefined(Frame(bars, std))|
    ensures var t := KeptIndices(Frame(bars, std))[j];
      && BandWindow - 1 <= t < |bars| - 1
      && Complete(Frame(bars, std)[t])
      && DropUndefined(Frame(bars, std))[j] == Fill(Frame(bars, std)[t])
      && DropUndefined(Frame(bars, std))[j].bar == bars[t]
  {
    var rows := Frame(bars, std);
    DropUndefinedKeepsCompleteRows(rows);
    var t := KeptIndices(rows)[j];
    CompleteIff(bars, std, t);
  }

  /** Row r holds the WMA3 columns of frame position t: lag i is WMA3[t−i], and the
      target is WMA3[t+1] − WMA3[t]. */
  predicate HoldsWmaColumns(wma: Column, t: int, r: FeatureRow) {
    && LagCount - 1 <= t < |wma| - 1 && |r.lags| == LagCount
    && (forall i :: 0 <= i < LagCount ==> wma[t - i] == Some(r.lags[i]))
    && wma[t] == Some(r.wma)
    && wma[t + 1] == Some(r.wma + r.target)
  }

  /** The WMA3 columns of a kept row from frame position t: lag i is WMA3[t−i], and
      the target is WMA3[t+1] − WMA3[t]. */
  lemma KeptRowLags(bars: seq<Bar>, std: Column, j: int)
    requires |std| == |bars|
    requires 0 <= j < |DropUndefined(Frame(bars, std))|
    ensures |KeptIndices(Frame(bars, std))| == |DropUndefined(Frame(bars, std))|
    ensures HoldsWmaColumns(Wma3(Closes(bars)), KeptIndices(Frame(bars, std))[j],
                            DropUndefined(Frame(bars, std))[j])
  {
    KeptRowPosition(bars, std, j);
    FilledRowLags(bars, std, KeptIndices(Frame(bars, std))[j], DropUndefined(Frame(bars, std))[j]);
  }

  /** The indicator columns of a kept row from frame position t: the STD, the 20-row
      mean of the closes, the tracks MA ± 3·STD, and the 20-row ATR. */
  lemma KeptRowIndicators(bars: seq<Bar>, std: Column, j: int)
    requires |std| == |bars|
    requires 0 <= j < |DropUndefined(Frame(bars, std))|
    ensures |KeptIndices(Frame(bars, std))| == |DropUndefined(Frame(bars, std))|
    ensures var r := DropUndefined(Frame(bars, std))[j];
      var t := KeptIndices(Frame(bars, std))[j];
      && 0 <= t < |bars|
      && std[t] == Some(r.std)
      && RollingMean(Lift(Closes(bars)), BandWindow)[t] == Some(r.ma)
      && r.upper == r.ma + BandWidth * r.std
      && r.lower == r.ma - BandWidth * r.std
      && Atr(Highs(bars), Lows(bars), Closes(bars), AtrWindow)[t] == Some(r.atr)
  {
    var rows := Frame(bars, std);
    var r := DropUndefined(rows)[j];
    KeptRowPosition(bars, std, j);
    var t := KeptIndices(rows)[j];
    assert 0 <= t < |bars| && Complete(rows[t]) && r == Fill(rows[t]);
    FilledRowIndicators(bars, std, t, r);
  }

  lemma FilledRowLags(bars: seq<Bar>, std: Column, t: int, r: FeatureRow)
    requires |std| == |bars| && BandWindow - 1 <= t < |bars| - 1
    requires Complete(Frame(bars, std)[t]) && r == Fill(Frame(bars, std)[t])
    ensures HoldsWmaColumns(Wma3(Closes(bars)), t, r)
  {
  }

  lemma FilledRowIndicators(bars: seq<Bar>, std: Column, t: int, r: FeatureRow)
    requires |std| == |bars| && 0 <= t < |bars|
    requires Complete(Frame(bars, std)[t]) && r == Fill(Frame(bars, std)[t])
    ensures && std[t] == Some(r.std)
      && RollingMean(Lift(Closes(bars)), BandWindow)[t] == Some(r.ma)
      && r.upper == r.ma + BandWidth * r.std
      && r.lower == r.ma - BandWidth * r.std
      && Atr(Highs(bars), Lows(bars), Closes(bars), AtrWindow)[t] == Some(r.atr)
  {
  }
}
