/** Price bars and the failures a strategy run can raise. */
module Market {
  /** One trading day. `key` stands for the day's date: keys are ordered and, in a
      price series, strictly ascending. */
  datatype Bar = Bar(key: int, open: real, high: real, low: real, close: real, volume: real)

  /** Why a strategy run raises instead of returning its frame.
      - NoTestData: no processed row falls on or after the split key.
      - PredictionLengthMismatch: the regressor returned a number of predictions
        different from the number of test rows (the frame rejects the column).
      - DivisionByZero: an entry bar has a zero close, and position sizing divides by it. */
  datatype Error = NoTestData | PredictionLengthMismatch | DivisionByZero

  function Highs(bars: seq<Bar>): seq<real> {
    seq(|bars|, t requires 0 <= t < |bars| => bars[t].high)
  }

  function Lows(bars: seq<Bar>): seq<real> {
    seq(|bars|, t requires 0 <= t < |bars| => bars[t].low)
  }

  function Closes(bars: seq<Bar>): seq<real> {
    seq(|bars|, t requires 0 <= t < |bars| => bars[t].close)
  }

  /** Keys strictly increase along the series. */
  predicate Ascending(bars: seq<Bar>) {
    forall i, j :: 0 <= i < j < |bars| ==> bars[i].key < bars[j].key
  }
}
