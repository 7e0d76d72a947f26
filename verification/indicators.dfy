/** The indicator library: three-bar weighted moving average, Bollinger bands,
    true range and average true range, and the maximum-drawdown reducer. */
module Indicators {
  import opened Wrappers
  import opened Series

  // ---------------------------------------------------------------- WMA3

  /** Weights of the three-bar weighted moving average, oldest bar first. */
  const Wma3Weights: seq<real> := [1.0, 2.0, 3.0]

  function Dot(a: seq<real>, b: seq<real>): real
    requires |a| == |b|
  {
    if |a| == 0 then 0.0 else Dot(a[..|a| - 1], b[..|b| - 1]) + a[|a| - 1] * b[|b| - 1]
  }

  /** Rolling window of three values, each window reduced to its weighted sum over
      the sum of the weights; rows without a full window are undefined. */
  function Wma3(x: seq<real>): (r: Column)
    ensures |r| == |x|
  {
    SumOfThree(1.0, 2.0, 3.0);
    seq(|x|, t requires 0 <= t < |x| =>
      if t + 1 < |Wma3Weights| then None
      else Some(Dot(Wma3Weights, x[t + 1 - |Wma3Weights| .. t + 1]) / Sum(Wma3Weights)))
  }

  lemma SumOfThree(a: real, b: real, c: real)
    ensures Sum([a, b, c]) == a + b + c
  {
    assert [a][..0] == [];
    assert Sum([a]) == a;
    assert [a, b][..1] == [a];
    assert Sum([a, b]) == a + b;
    assert [a, b, c][..2] == [a, b];
  }

  lemma DotOfThree(a: seq<real>, b: seq<real>)
    requires |a| == 3 && |b| == 3
    ensures Dot(a, b) == a[0] * b[0] + a[1] * b[1] + a[2] * b[2]
  {
    assert a[..2][..1] == a[..1] && b[..2][..1] == b[..1];
    assert a[..1][..0] == [] && b[..1][..0] == [];
    assert Dot(a[..1], b[..1]) == a[0] * b[0];
    assert Dot(a[..2], b[..2]) == a[0] * b[0] + a[1] * b[1];
  }

  /** WMA3 in closed form: (x[t-2] + 2·x[t-1] + 3·x[t]) / 6 from the third row on. */
  lemma Wma3Formula(x: seq<real>, t: int)
    requires 0 <= t < |x|
    ensures t < 2 ==> Wma3(x)[t] == None
    ensures t >= 2 ==> Wma3(x)[t] == Some((x[t - 2] + 2.0 * x[t - 1] + 3.0 * x[t]) / 6.0)
  {
    if t >= 2 {
      var w := x[t - 2 .. t + 1];
      assert w[0] == x[t - 2] && w[1] == x[t - 1] && w[2] == x[t];
      assert Wma3Weights[0] == 1.0 && Wma3Weights[1] == 2.0 && Wma3Weights[2] == 3.0;
      SumOfThree(1.0, 2.0, 3.0);
      assert Sum(Wma3Weights) == 6.0;
      DotOfThree(Wma3Weights, w);
      var dot := Dot(Wma3Weights, w);
      assert dot == x[t - 2] + 2.0 * x[t - 1] + 3.0 * x[t];
      assert t + 1 - |Wma3Weights| == t - 2;
      assert Wma3(x)[t] == Some(dot / Sum(Wma3Weights));
      assert dot / Sum(Wma3Weights) == dot / 6.0;
    }
  }

  /** Because the weights are positive, WMA3 never leaves the range of its window. */
  lemma Wma3WithinWindow(x: seq<real>, t: int, lo: real, hi: real)
    requires 2 <= t < |x|
    requires Within(x[t - 2 .. t + 1], lo, hi)
    ensures Wma3(x)[t].Some? && lo <= Wma3(x)[t].value <= hi
  {
    Wma3Formula(x, t);
    assert x[t - 2 .. t + 1][0] == x[t - 2];
    assert x[t - 2 .. t + 1][1] == x[t - 1];
    assert x[t - 2 .. t + 1][2] == x[t];
  }

  /** On a constant window WMA3 reproduces the constant. */
  lemma Wma3OfConstantWindow(x: seq<real>, t: int, c: real)
    requires 2 <= t < |x|
    requires x[t - 2] == c && x[t - 1] == c && x[t] == c
    ensures Wma3(x)[t] == Some(c)
  {
    Wma3Formula(x, t);
  }

  // ---------------------------------------------------------------- rolling mean

  /** Rolling mean over a window of `d` rows: defined only on a full window whose
      cells are all defined (a rolling mean needing `d` observations). */
  function RollingMean(col: Column, d: nat): (r: Column)
    ensures |r| == |col|
  {
    seq(|col|, t requires 0 <= t < |col| =>
      if d == 0 || t + 1 < d then None
      else
        var w := col[t + 1 - d .. t + 1];
        if AllDefined(w) then Some(Mean(Values(w))) else None)
  }

  /** On a fully defined series the rolling mean is undefined exactly on the first
      d-1 rows and is the window mean after them. */
  lemma RollingMeanOfSeries(x: seq<real>, d: nat, t: int)
    requires d >= 1 && 0 <= t < |x|
    ensures RollingMean(Lift(x), d)[t].Some? <==> t >= d - 1
    ensures t >= d - 1 ==> RollingMean(Lift(x), d)[t] == Some(Mean(x[t + 1 - d .. t + 1]))
  {
    if t >= d - 1 {
      var w := Lift(x)[t + 1 - d .. t + 1];
      assert AllDefined(w);
      assert Values(w) == x[t + 1 - d .. t + 1];
    }
  }

  /** The rolling mean lies within the range of its window. */
  lemma RollingMeanWithinWindow(x: seq<real>, d: nat, t: int, lo: real, hi: real)
    requires d >= 1 && d - 1 <= t < |x|
    requires Within(x[t + 1 - d .. t + 1], lo, hi)
    ensures RollingMean(Lift(x), d)[t].Some?
    ensures lo <= RollingMean(Lift(x), d)[t].value <= hi
  {
    RollingMeanOfSeries(x, d, t);
    MeanWithin(x[t + 1 - d .. t + 1], lo, hi);
  }

  // ---------------------------------------------------------------- Bollinger bands

  /** The columns the band calculation adds to a frame. */
  datatype Bands = Bands(ma: Column, std: Column, upper: Column, lower: Column)

  /** `a + k·b` cell-wise; undefined if either cell is. */
  function PlusTimes(a: Option<real>, k: real, b: Option<real>): Option<real> {
    if a.Some? && b.Some? then Some(a.value + k * b.value) else None
  }

  /** `a − k·b` cell-wise; undefined if either cell is. */
  function MinusTimes(a: Option<real>, k: real, b: Option<real>): Option<real> {
    if a.Some? && b.Some? then Some(a.value - k * b.value) else None
  }

  /** Bollinger bands around the `d`-row rolling mean of the closes. The rolling
      sample standard deviation is given as the column `std`. */
  function BollingerBands(close: seq<real>, std: Column, d: nat, k: real): (b: Bands)
    requires |std| == |close|
    ensures |b.ma| == |b.std| == |b.upper| == |b.lower| == |close|
  {
    var ma := RollingMean(Lift(close), d);
    Bands(ma, std,
      seq(|close|, t requires 0 <= t < |close| => PlusTimes(ma[t], k, std[t])),
      seq(|close|, t requires 0 <= t < |close| => MinusTimes(ma[t], k, std[t])))
  }

  /** Band shape: both tracks are defined exactly where MA and STD are, they are
      2·k·STD apart and, for k ≥ 0 and STD ≥ 0, they enclose MA. */
  lemma BandsShape(close: seq<real>, std: Column, d: nat, k: real, t: int)
    requires |std| == |close| && 0 <= t < |close|
    ensures var b := BollingerBands(close, std, d, k);
      && (b.upper[t].Some? <==> b.ma[t].Some? && b.std[t].Some?)
      && (b.lower[t].Some? <==> b.ma[t].Some? && b.std[t].Some?)
      && b.ma[t] == RollingMean(Lift(close), d)[t]
      && b.std[t] == std[t]
      && (b.upper[t].Some? ==> b.upper[t].value - b.lower[t].value == 2.0 * k * b.std[t].value)
      && (b.upper[t].Some? && k >= 0.0 && b.std[t].value >= 0.0 ==>
            b.lower[t].value <= b.ma[t].value <= b.upper[t].value)
  {
  }

  // ---------------------------------------------------------------- true range, ATR

  /** Maximum of a row's cells that skips the undefined ones; undefined only when
      every cell is. */
  function MaxSkipUndefined(cells: seq<Option<real>>): (r: Option<real>)
    ensures r.Some? <==> exists i :: 0 <= i < |cells| && cells[i].Some?
    ensures r.Some? ==> forall i :: 0 <= i < |cells| && cells[i].Some? ==> cells[i].value <= r.value
    ensures r.Some? ==> r in cells
  {
    if |cells| == 0 then None
    else
      var m := MaxSkipUndefined(cells[..|cells| - 1]);
      var c := cells[|cells| - 1];
      if c.None? then m
      else if m.None? then c
      else Some(Max(m.value, c.value))
  }

  /** Row-wise maximum of high−low, |high−previous close| and |low−previous close|;
      the previous close is undefined on the first row and is skipped there. */
  function TrueRange(high: seq<real>, low: seq<real>, close: seq<real>): (tr: Column)
    requires |high| == |low| == |close|
    ensures |tr| == |close|
  {
    var prev := Shift(Lift(close), 1);
    seq(|close|, t requires 0 <= t < |close| =>
      MaxSkipUndefined([Some(high[t] - low[t]),
                        AbsOf(Minus(Some(high[t]), prev[t])),
                        AbsOf(Minus(Some(low[t]), prev[t]))]))
  }

  /** True range in closed form: high−low on the first row, and afterwards the
      largest of the three ranges. It is defined on every row. */
  lemma TrueRangeFormula(high: seq<real>, low: seq<real>, close: seq<real>, t: int)
    requires |high| == |low| == |close| && 0 <= t < |close|
    ensures var tr := TrueRange(high, low, close);
      && tr[t].Some?
      && (t == 0 ==> tr[t].value == high[0] - low[0])
      && (t > 0 ==>
            var a, b, c := high[t] - low[t], Abs(high[t] - close[t - 1]), Abs(low[t] - close[t - 1]);
            a <= tr[t].value && b <= tr[t].value && c <= tr[t].value
            && (tr[t].value == a || tr[t].value == b || tr[t].value == c))
  {
    var prev := Shift(Lift(close), 1);
    var b, c := AbsOf(Minus(Some(high[t]), prev[t])), AbsOf(Minus(Some(low[t]), prev[t]));
    assert TrueRange(high, low, close)[t] == MaxSkipUndefined([Some(high[t] - low[t]), b, c]);
    MaxOfThreeCells(high[t] - low[t], b, c);
    if t == 0 {
      assert b.None? && c.None?;
    } else {
      assert b == Some(Abs(high[t] - close[t - 1]));
      assert c == Some(Abs(low[t] - close[t - 1]));
    }
  }

  lemma MaxOfThreeCells(a: real, b: Option<real>, c: Option<real>)
    ensures var r := MaxSkipUndefined([Some(a), b, c]);
      && r.Some? && a <= r.value
      && (b.Some? ==> b.value <= r.value)
      && (c.Some? ==> c.value <= r.value)
      && (r.value == a || r == b || r == c)
  {
    var cells := [Some(a), b, c];
    assert cells[0].Some? && cells[1] == b && cells[2] == c;
  }

  /** The true range is at least the bar's high−low span, so it is non-negative on
      any bar whose high is not below its low. */
  lemma TrueRangeAtLeastSpan(high: seq<real>, low: seq<real>, close: seq<real>, t: int)
    requires |high| == |low| == |close| && 0 <= t < |close|
    ensures TrueRange(high, low, close)[t].Some?
    ensures TrueRange(high, low, close)[t].value >= high[t] - low[t]
    ensures high[t] >= low[t] ==> TrueRange(high, low, close)[t].value >= 0.0
  {
    TrueRangeFormula(high, low, close, t);
  }

  /** Average true range: the `n`-row rolling mean of the true range. */
  function Atr(high: seq<real>, low: seq<real>, close: seq<real>, n: nat): (r: Column)
    requires |high| == |low| == |close|
    ensures |r| == |close|
  {
    RollingMean(TrueRange(high, low, close), n)
  }

  /** ATR is undefined exactly on the first n-1 rows (the first true range is
      defined), and it is non-negative when every bar has high ≥ low. */
  lemma AtrWarmup(high: seq<real>, low: seq<real>, close: seq<real>, n: nat, t: int)
    requires |high| == |low| == |close| && n >= 1 && 0 <= t < |close|
    ensures Atr(high, low, close, n)[t].Some? <==> t >= n - 1
    ensures t >= n - 1 && (forall j :: 0 <= j < |close| ==> low[j] <= high[j]) ==>
              Atr(high, low, close, n)[t].value >= 0.0
  {
    AtrWindowMean(high, low, close, n, t);
    if t >= n - 1 && forall j :: 0 <= j < |close| ==> low[j] <= high[j] {
      var w := TrueRange(high, low, close)[t + 1 - n .. t + 1];
      TrueRangeWindowNonNegative(high, low, close, n, t);
      MeanWithin(Values(w), 0.0, MaxUpper(Values(w)));
    }
  }

  lemma AtrWindowMean(high: seq<real>, low: seq<real>, close: seq<real>, n: nat, t: int)
    requires |high| == |low| == |close| && n >= 1 && 0 <= t < |close|
    ensures Atr(high, low, close, n)[t].Some? <==> t >= n - 1
    ensures t >= n - 1 ==>
      && AllDefined(TrueRange(high, low, close)[t + 1 - n .. t + 1])
      && Atr(high, low, close, n)[t] == Some(Mean(Values(TrueRange(high, low, close)[t + 1 - n .. t + 1])))
  {
    if t >= n - 1 {
      TrueRangeWindowDefined(high, low, close, n, t);
    }
  }

  lemma TrueRangeWindowDefined(high: seq<real>, low: seq<real>, close: seq<real>, n: nat, t: int)
    requires |high| == |low| == |close| && n >= 1 && n - 1 <= t < |close|
    ensures AllDefined(TrueRange(high, low, close)[t + 1 - n .. t + 1])
  {
    var w := TrueRange(high, low, close)[t + 1 - n .. t + 1];
    forall i | 0 <= i < |w| ensures w[i].Some? {
      TrueRangeFormula(high, low, close, t + 1 - n + i);
    }
  }

  lemma TrueRangeWindowNonNegative(high: seq<real>, low: seq<real>, close: seq<real>, n: nat, t: int)
    requires |high| == |low| == |close| && n >= 1 && n - 1 <= t < |close|
    requires forall j :: 0 <= j < |close| ==> low[j] <= high[j]
    requires AllDefined(TrueRange(high, low, close)[t + 1 - n .. t + 1])
    ensures var v := Values(TrueRange(high, low, close)[t + 1 - n .. t + 1]);
      Within(v, 0.0, MaxUpper(v))
  {
    var w := TrueRange(high, low, close)[t + 1 - n .. t + 1];
    forall i | 0 <= i < |w| ensures Values(w)[i] >= 0.0 {
      TrueRangeAtLeastSpan(high, low, close, t + 1 - n + i);
    }
  }

  /** An upper bound of a sequence (0 for the empty one). */
  function MaxUpper(s: seq<real>): (r: real)
    ensures forall i :: 0 <= i < |s| ==> s[i] <= r
  {
    if |s| == 0 then 0.0 else Max(MaxUpper(s[..|s| - 1]), s[|s| - 1])
  }

  // ---------------------------------------------------------------- drawdown

  /** value / running maximum − 1 at every row. The first value must be positive,
      so that the running maximum never vanishes. */
  function Drawdowns(v: seq<real>): (dd: seq<real>)
    requires |v| == 0 || v[0] > 0.0
    ensures |dd| == |v|
  {
    var m := CumMax(v);
    seq(|v|, t requires 0 <= t < |v| => assert v[0] <= m[t]; v[t] / m[t] - 1.0)
  }

  /** The most negative drawdown, as a percentage; undefined for an empty series. */
  function MaxDrawdown(v: seq<real>): (r: Option<real>)
    requires |v| == 0 || v[0] > 0.0
    ensures r.None? <==> |v| == 0
    ensures r.Some? ==> r.value <= 0.0
  {
    if |v| == 0 then None
    else
      var dd := Drawdowns(v);
      assert dd[0] == 0.0 by {
        assert CumMax(v)[0] == v[0] by {
          assert v[..1] == [v[0]];
          assert CumMax(v)[0] in v[..1];
        }
      }
      Some(MinOf(dd) * 100.0)
  }

  lemma RatioToPeak(a: real, m: real)
    requires 0.0 < a <= m
    ensures 0.0 < a / m <= 1.0
    ensures a == m ==> a / m == 1.0
  {
  }

  /** Each drawdown lies in (−1, 0] on a strictly positive series, and so the
      maximum drawdown lies in (−100, 0]. */
  lemma DrawdownRange(v: seq<real>)
    requires |v| > 0 && forall t :: 0 <= t < |v| ==> v[t] > 0.0
    ensures forall t :: 0 <= t < |v| ==> -1.0 < Drawdowns(v)[t] <= 0.0
    ensures -100.0 < MaxDrawdown(v).value <= 0.0
  {
    var m := CumMax(v);
    var dd := Drawdowns(v);
    forall t | 0 <= t < |v| ensures -1.0 < dd[t] <= 0.0 {
      assert v[t] <= m[t];
      RatioToPeak(v[t], m[t]);
    }
    var i :| 0 <= i < |dd| && MinOf(dd) == dd[i];
    assert MinOf(dd) > -1.0;
  }

  predicate NonDecreasing(v: seq<real>) {
    forall i, j :: 0 <= i <= j < |v| ==> v[i] <= v[j]
  }

  lemma CumMaxOfNonDecreasing(v: seq<real>, t: int)
    requires NonDecreasing(v) && 0 <= t < |v|
    ensures CumMax(v)[t] == v[t]
  {
    var m := CumMax(v);
    assert m[t] in v[..t + 1];
    var j :| 0 <= j < t + 1 && m[t] == v[..t + 1][j];
    assert v[j] <= v[t];
  }

  /** A non-decreasing series never falls below its running maximum: no drawdown. */
  lemma NonDecreasingHasNoDrawdown(v: seq<real>)
    requires |v| > 0 && v[0] > 0.0 && NonDecreasing(v)
    ensures MaxDrawdown(v) == Some(0.0)
  {
    var dd := Drawdowns(v);
    forall t | 0 <= t < |dd| ensures dd[t] == 0.0 {
      CumMaxOfNonDecreasing(v, t);
      DrawdownAtPeak(v, t);
    }
    MinOfConstant(dd, 0.0);
    MaxDrawdownIsScaledMin(v);
  }

  lemma MaxDrawdownIsScaledMin(v: seq<real>)
    requires |v| > 0 && v[0] > 0.0
    ensures MaxDrawdown(v) == Some(MinOf(Drawdowns(v)) * 100.0)
  {
  }

  lemma MinOfConstant(s: seq<real>, c: real)
    requires |s| > 0 && forall i :: 0 <= i < |s| ==> s[i] == c
    ensures MinOf(s) == c
  {
  }

  /** At a running peak (a value equal to the running maximum) the drawdown is 0. */
  lemma DrawdownAtPeak(v: seq<real>, t: int)
    requires |v| > 0 && v[0] > 0.0 && 0 <= t < |v| && v[t] == CumMax(v)[t]
    ensures Drawdowns(v)[t] == 0.0
  {
    var m := CumMax(v);
    assert v[0] <= m[t];
    assert Drawdowns(v)[t] == v[t] / m[t] - 1.0;
    RatioToPeak(v[t], m[t]);
  }
}
