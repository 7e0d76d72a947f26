/** The enhanced strategy: split of the feature table at a key, an opaque regressor
    predicting the next WMA3 change, and a flat/long/short state machine driven by
    the predicted WMA3, the Bollinger tracks and an ATR stop. */
module Enhanced {
  import opened Wrappers
  import opened Series
  import opened Market
  import opened Features

  // ---------------------------------------------------------------- split

  /** Rows strictly before the split key, in order. */
  function TrainRows(rows: seq<FeatureRow>, split: int): (train: seq<FeatureRow>)
    ensures |train| <= |rows|
    ensures forall j :: 0 <= j < |train| ==> train[j].bar.key < split
  {
    if |rows| == 0 then []
    else
      var last := rows[|rows| - 1];
      TrainRows(rows[..|rows| - 1], split) + (if last.bar.key < split then [last] else [])
  }

  /** Rows on or after the split key, in order. */
  function TestRows(rows: seq<FeatureRow>, split: int): (test: seq<FeatureRow>)
    ensures |test| <= |rows|
    ensures forall j :: 0 <= j < |test| ==> test[j].bar.key >= split
  {
    if |rows| == 0 then []
    else
      var last := rows[|rows| - 1];
      TestRows(rows[..|rows| - 1], split) + (if last.bar.key >= split then [last] else [])
  }

  /** Train/test split; raises when the test side is empty. */
  function Split(rows: seq<FeatureRow>, split: int): (r: Result<(seq<FeatureRow>, seq<FeatureRow>), Error>)
    ensures r.Err? <==> forall j :: 0 <= j < |rows| ==> rows[j].bar.key < split
    ensures r.Err? ==> r.error == NoTestData
    ensures r.Ok? ==> |r.value.1| > 0
  {
    TestRowsEmptyIff(rows, split);
    var test := TestRows(rows, split);
    if |test| == 0 then Err(NoTestData) else Ok((TrainRows(rows, split), test))
  }

  /** The test side is empty exactly when every row lies before the split. */
  lemma {:induction false} TestRowsEmptyIff(rows: seq<FeatureRow>, split: int)
    ensures |TestRows(rows, split)| == 0 <==> forall j :: 0 <= j < |rows| ==> rows[j].bar.key < split
  {
    if |rows| > 0 {
      var n := |rows| - 1;
      var p, last := rows[..n], rows[n];
      assert rows == p + [last];
      TestRowsEmptyIff(p, split);
      SplitLast(p, last, split);
      if |TestRows(rows, split)| == 0 {
        forall j | 0 <= j < |rows| ensures rows[j].bar.key < split {
          if j < n { assert rows[j] == p[j]; }
        }
      }
    }
  }

  predicate KeysAscending(rows: seq<FeatureRow>) {
    forall i, j :: 0 <= i < j < |rows| ==> rows[i].bar.key < rows[j].bar.key
  }

  /** Together the two sides of the split hold every row exactly once. */
  lemma {:induction false} SplitKeepsEveryRow(rows: seq<FeatureRow>, split: int)
    ensures multiset(TrainRows(rows, split)) + multiset(TestRows(rows, split)) == multiset(rows)
  {
    if |rows| > 0 {
      var n := |rows| - 1;
      var p, last := rows[..n], rows[n];
      assert rows == p + [last];
      SplitKeepsEveryRow(p, split);
      SplitLast(p, last, split);
      var train, test := TrainRows(p, split), TestRows(p, split);
      assert multiset(rows) == multiset(p) + multiset{last};
      if last.bar.key < split {
        assert multiset(TrainRows(rows, split)) == multiset(train) + multiset{last};
        assert multiset(TestRows(rows, split)) == multiset(test);
      } else {
        assert multiset(TrainRows(rows, split)) == multiset(train);
        assert multiset(TestRows(rows, split)) == multiset(test) + multiset{last};
      }
    }
  }

  /** On ascending keys the training rows are a prefix of the rows and the test rows
      the rest, so every training row precedes every test row. */
  lemma {:induction false} SplitIsPrefixAndSuffix(rows: seq<FeatureRow>, split: int)
    requires KeysAscending(rows)
    ensures TrainRows(rows, split) + TestRows(rows, split) == rows
  {
    if |rows| > 0 {
      var n := |rows| - 1;
      var p, last := rows[..n], rows[n];
      assert rows == p + [last];
      AscendingPrefix(rows, n);
      SplitIsPrefixAndSuffix(p, split);
      SplitLast(p, last, split);
      var train, test := TrainRows(p, split), TestRows(p, split);
      if last.bar.key < split {
        AllBeforeLast(rows, n, split);
        NoTestRows(p, split);
        assert train == p;
        assert TrainRows(rows, split) + TestRows(rows, split) == p + [last];
      } else {
        assert TrainRows(rows, split) + TestRows(rows, split) == train + (test + [last]);
        assert train + (test + [last]) == (train + test) + [last];
      }
    }
  }

  lemma AscendingPrefix(rows: seq<FeatureRow>, n: nat)
    requires KeysAscending(rows) && n <= |rows|
    ensures KeysAscending(rows[..n])
  {
  }

  /** On ascending keys, a last row before the split puts every row before it. */
  lemma AllBeforeLast(rows: seq<FeatureRow>, n: nat, split: int)
    requires KeysAscending(rows) && n == |rows| - 1 && rows[n].bar.key < split
    ensures forall j :: 0 <= j < n ==> rows[..n][j].bar.key < split
  {
  }

  /** Adding a row at the end adds it to exactly one side of the split. */
  lemma SplitLast(p: seq<FeatureRow>, last: FeatureRow, split: int)
    ensures last.bar.key < split ==>
      TrainRows(p + [last], split) == TrainRows(p, split) + [last]
      && TestRows(p + [last], split) == TestRows(p, split)
    ensures last.bar.key >= split ==>
      TrainRows(p + [last], split) == TrainRows(p, split)
      && TestRows(p + [last], split) == TestRows(p, split) + [last]
  {
  }

  lemma NoTestRows(rows: seq<FeatureRow>, split: int)
    requires forall j :: 0 <= j < |rows| ==> rows[j].bar.key < split
    ensures TestRows(rows, split) == []
  {
    TestRowsEmptyIff(rows, split);
  }

  /** Rows that survive feature preparation keep the order of the bars they came from. */
  lemma PreparedRowsAscending(bars: seq<Bar>, std: Column)
    requires |std| == |bars| && Ascending(bars)
    ensures KeysAscending(PrepareFeatures(bars, std).0)
  {
    var rows := PrepareFeatures(bars, std).0;
    var frame := Frame(bars, std);
    DropUndefinedKeepsCompleteRows(frame);
    forall i, j | 0 <= i < j < |rows| ensures rows[i].bar.key < rows[j].bar.key {
      KeptRowPosition(bars, std, i);
      KeptRowPosition(bars, std, j);
    }
  }

  // ---------------------------------------------------------------- state machine

  /** Portfolio state. `position` is 0 (flat), 1 (long) or -1 (short). */
  datatype State = State(position: int, cash: real, shares: real, entryPrice: real)

  /** What one test bar supplies to the state machine. */
  datatype Quote = Quote(predWma: real, upper: real, lower: real, atr: real, close: real)

  /** The transition a bar fires; at most one per bar. */
  datatype Transition = EnterLong | EnterShort | ExitLong | ExitShort | Hold

  /** The stop-loss distance from the entry price, in ATRs. */
  const StopAtrs: real := 3.0

  function Initial(capital: real): State {
    State(0, capital, 0.0, 0.0)
  }

  /** The state machine's invariant: a known position, and no shares when flat. */
  predicate Invariant(s: State) {
    (s.position == 0 || s.position == 1 || s.position == -1)
    && (s.position == 0 ==> s.shares == 0.0)
  }

  /** The transition rules in their fixed priority order. Entries fire only from
      flat, each exit only from its own position, and a flat book holds exactly
      while the prediction lies strictly inside the tracks. */
  function Decide(s: State, q: Quote): (t: Transition)
    ensures t == EnterLong || t == EnterShort ==> s.position == 0
    ensures t == ExitLong ==> s.position == 1
    ensures t == ExitShort ==> s.position == -1
    ensures s.position == 0 ==> (t == Hold <==> q.lower < q.predWma < q.upper)
  {
    if s.position == 0 && q.predWma <= q.lower then EnterLong
    else if s.position == 0 && q.predWma >= q.upper then EnterShort
    else if s.position == 1 then
      if q.predWma < s.entryPrice - StopAtrs * q.atr || q.predWma > q.upper then ExitLong else Hold
    else if s.position == -1 then
      if q.predWma > s.entryPrice + StopAtrs * q.atr || q.predWma < q.lower then ExitShort else Hold
    else Hold
  }

  /** One bar's transition. Entries divide by the close and raise on a zero close.
      A short sells `capital / close` shares whatever the cash, and credits the sale
      on top of the capital. */
  function Step(s: State, q: Quote, capital: real): (r: Result<State, Error>)
    ensures Invariant(s) && r.Ok? ==> Invariant(r.value)
    ensures r.Err? <==> (Decide(s, q) == EnterLong || Decide(s, q) == EnterShort) && q.close == 0.0
    ensures r.Err? ==> r.error == DivisionByZero
  {
    match Decide(s, q)
    case EnterLong =>
      if q.close == 0.0 then Err(DivisionByZero)
      else Ok(State(1, 0.0, s.cash / q.close, q.close))
    case EnterShort =>
      if q.close == 0.0 then Err(DivisionByZero)
      else
        var shares := capital / q.close;
        Ok(State(-1, capital + shares * q.close, shares, q.close))
    case ExitLong => Ok(State(0, s.shares * q.close, 0.0, s.entryPrice))
    case ExitShort => Ok(State(0, s.cash - s.shares * q.close, 0.0, s.entryPrice))
    case Hold => Ok(s)
  }

  /** Mark-to-market value at a close: cash when flat, the shares when long, and cash
      less the short liability when short. */
  function Value(s: State, close: real): (v: real)
    requires Invariant(s)
    ensures s.position == 0 ==> v == s.cash + s.shares * close
    ensures s.position == 1 && s.shares >= 0.0 && close >= 0.0 ==> v >= 0.0
    ensures s.position == -1 && s.shares >= 0.0 && close >= 0.0 ==> v <= s.cash
  {
    if s.position == 0 then s.cash
    else if s.position == 1 then s.shares * close
    else s.cash - s.shares * close
  }

  /** The run starts flat with the capital in cash and is worth the capital. */
  lemma InitialState(capital: real, close: real)
    ensures Invariant(Initial(capital))
    ensures Initial(capital).position == 0 && Initial(capital).shares == 0.0
    ensures Initial(capital).cash == capital && Initial(capital).entryPrice == 0.0
    ensures Value(Initial(capital), close) == capital
  {
  }

  /** Long entry fires exactly from flat with pred ≤ lower; it buys the cash's worth
      of shares at the close, and the bar's value is the cash held before entry. */
  lemma LongEntry(s: State, q: Quote, capital: real)
    requires Invariant(s)
    ensures Decide(s, q) == EnterLong <==> s.position == 0 && q.predWma <= q.lower
    ensures Decide(s, q) == EnterLong && q.close != 0.0 ==>
              var s' := Step(s, q, capital).value;
              && s'.position == 1 && s'.entryPrice == q.close
              && s'.shares == s.cash / q.close && s'.cash == 0.0
              && Value(s', q.close) == s.cash
  {
  }

  /** Short entry fires exactly from flat when long entry does not and pred ≥ upper.
      It sells capital/close shares regardless of the cash, credits the proceeds on
      top of the capital, and the bar's value is exactly the capital. */
  lemma ShortEntry(s: State, q: Quote, capital: real)
    requires Invariant(s)
    ensures Decide(s, q) == EnterShort <==>
              s.position == 0 && !(q.predWma <= q.lower) && q.predWma >= q.upper
    ensures Decide(s, q) == EnterShort && q.close != 0.0 ==>
              var s' := Step(s, q, capital).value;
              && s'.position == -1 && s'.entryPrice == q.close
              && s'.shares == capital / q.close
              && s'.cash == capital + s'.shares * q.close
              && Value(s', q.close) == capital
  {
  }

  /** From long, the position closes exactly on the ATR stop or above the upper
      track; the shares are sold at the close, so the bar's value is the long
      mark-to-market. Otherwise nothing changes. */
  lemma LongExit(s: State, q: Quote, capital: real)
    requires Invariant(s) && s.position == 1
    ensures var s' := Step(s, q, capital).value;
      && Step(s, q, capital).Ok?
      && (s'.position == 0 <==> q.predWma < s.entryPrice - StopAtrs * q.atr || q.predWma > q.upper)
      && (s'.position == 0 ==>
            s'.cash == s.shares * q.close && s'.shares == 0.0 && Value(s', q.close) == Value(s, q.close))
      && (s'.position != 0 ==> s' == s)
  {
  }

  /** From short, the position closes exactly on the ATR stop or below the lower
      track; the buy-back is paid from the cash, so the bar's value is the short
      valuation cash − shares·close. Otherwise nothing changes. */
  lemma ShortExit(s: State, q: Quote, capital: real)
    requires Invariant(s) && s.position == -1
    ensures var s' := Step(s, q, capital).value;
      && Step(s, q, capital).Ok?
      && (s'.position == 0 <==> q.predWma > s.entryPrice + StopAtrs * q.atr || q.predWma < q.lower)
      && (s'.position == 0 ==>
            s'.cash == s.cash - s.shares * q.close && s'.shares == 0.0
            && Value(s', q.close) == Value(s, q.close))
      && (s'.position != 0 ==> s' == s)
  {
  }

  /** No transition but a short entry changes the value of the bar it fires on: the
      bar is worth what the pre-transition state is worth at that close. */
  lemma StepKeepsBarValue(s: State, q: Quote, capital: real)
    requires Invariant(s) && Step(s, q, capital).Ok? && Decide(s, q) != EnterShort
    ensures Value(Step(s, q, capital).value, q.close) == Value(s, q.close)
  {
  }

  // ---------------------------------------------------------------- the bar loop

  /** Runs the state machine over the bars in order, returning the final state and
      one value per bar, taken after that bar's transition. */
  function Simulate(s: State, quotes: seq<Quote>, capital: real): (r: Result<(State, seq<real>), Error>)
    requires Invariant(s)
    ensures r.Ok? ==> Invariant(r.value.0) && |r.value.1| == |quotes|
    ensures r.Err? ==> r.error == DivisionByZero
    decreases |quotes|
  {
    if |quotes| == 0 then Ok((s, []))
    else
      match Simulate(s, quotes[..|quotes| - 1], capital)
      case Err(e) => Err(e)
      case Ok((p, values)) =>
        var q := quotes[|quotes| - 1];
        match Step(p, q, capital)
        case Err(e) => Err(e)
        case Ok(p') => Ok((p', values + [Value(p', q.close)]))
  }

  /** The run is causal: the first n values depend only on the first n bars. */
  lemma {:induction false} SimulatePrefix(s: State, quotes: seq<Quote>, capital: real, n: nat)
    requires Invariant(s) && n <= |quotes|
    requires Simulate(s, quotes, capital).Ok?
    ensures Simulate(s, quotes[..n], capital).Ok?
    ensures Simulate(s, quotes[..n], capital).value.1 == Simulate(s, quotes, capital).value.1[..n]
    decreases |quotes|
  {
    if n < |quotes| {
      var m := |quotes| - 1;
      SimulatePrefix(s, quotes[..m], capital, n);
      assert quotes[..m][..n] == quotes[..n];
      var values := Simulate(s, quotes[..m], capital).value.1;
      assert Simulate(s, quotes, capital).value.1[..m] == values;
    } else {
      assert quotes[..n] == quotes;
    }
  }

  /** Bar i's value is the value, at bar i's close, of the state that bar i's
      transition produced from the state after bar i−1. */
  lemma BarValue(s: State, quotes: seq<Quote>, capital: real, i: nat)
    requires Invariant(s) && i < |quotes|
    requires Simulate(s, quotes, capital).Ok?
    ensures var before := Simulate(s, quotes[..i], capital);
      var after := Simulate(s, quotes[..i + 1], capital);
      && before.Ok? && after.Ok?
      && Step(before.value.0, quotes[i], capital) == Ok(after.value.0)
      && Simulate(s, quotes, capital).value.1[i] == Value(after.value.0, quotes[i].close)
  {
    SimulatePrefix(s, quotes, capital, i + 1);
    SimulatePrefix(s, quotes, capital, i);
    assert quotes[..i + 1][..i] == quotes[..i];
    assert Simulate(s, quotes, capital).value.1[..i + 1][i] == Simulate(s, quotes, capital).value.1[i];
  }

  /** The value series does not jump on a long-entry bar: it repeats the previous
      bar's value (the capital on the first bar). A short entry instead resets the
      bar's value to the capital, whatever the cash was. */
  lemma EntryBarValues(quotes: seq<Quote>, capital: real, i: nat)
    requires i < |quotes|
    requires Simulate(Initial(capital), quotes, capital).Ok?
    ensures Simulate(Initial(capital), quotes[..i], capital).Ok?
    ensures var values := Simulate(Initial(capital), quotes, capital).value.1;
      var before := Simulate(Initial(capital), quotes[..i], capital).value.0;
      && (Decide(before, quotes[i]) == EnterLong ==>
            values[i] == if i == 0 then capital else values[i - 1])
      && (Decide(before, quotes[i]) == EnterShort ==> values[i] == capital)
  {
    var s := Initial(capital);
    var values := Simulate(s, quotes, capital).value.1;
    BarValue(s, quotes, capital, i);
    var before := Simulate(s, quotes[..i], capital).value.0;
    var after := Simulate(s, quotes[..i + 1], capital).value.0;
    var q := quotes[i];
    if Decide(before, q) == EnterLong {
      LongEntry(before, q, capital);
      assert values[i] == before.cash;
      if i == 0 {
        assert quotes[..0] == [];
        assert before == s;
      } else {
        BarValue(s, quotes, capital, i - 1);
        assert quotes[..i - 1 + 1] == quotes[..i];
        assert values[i - 1] == Value(before, quotes[i - 1].close);
      }
    }
    if Decide(before, q) == EnterShort {
      ShortEntry(before, q, capital);
    }
  }

  /** One bar's transition written as the strategy's if/elif chain over the
      position, mutating a copy of the state. */
  method ApplyBar(s: State, q: Quote, capital: real) returns (r: Result<State, Error>)
    requires Invariant(s)
    ensures r.Ok? <==> Step(s, q, capital).Ok?
    ensures r.Ok? ==> r.value == Step(s, q, capital).value
  {
    var st := s;
    if st.position == 0 && q.predWma <= q.lower {
      if q.close == 0.0 {
        return Err(DivisionByZero);
      }
      st := st.(position := 1, entryPrice := q.close);
      st := st.(shares := st.cash / q.close);
      st := st.(cash := 0.0);
      assert Decide(s, q) == EnterLong;
    } else if st.position == 0 && q.predWma >= q.upper {
      if q.close == 0.0 {
        return Err(DivisionByZero);
      }
      st := st.(position := -1, entryPrice := q.close);
      st := st.(shares := capital / q.close);
      st := st.(cash := capital + st.shares * q.close);
      assert Decide(s, q) == EnterShort;
    } else if st.position == 1 {
      var stopLoss := st.entryPrice - StopAtrs * q.atr;
      if q.predWma < stopLoss || q.predWma > q.upper {
        st := st.(position := 0, cash := st.shares * q.close);
        st := st.(shares := 0.0);
        assert Decide(s, q) == ExitLong;
      } else {
        assert Decide(s, q) == Hold;
      }
    } else if st.position == -1 {
      var stopLoss := st.entryPrice + StopAtrs * q.atr;
      if q.predWma > stopLoss || q.predWma < q.lower {
        var cost := st.shares * q.close;
        st := st.(position := 0, cash := st.cash - cost);
        st := st.(shares := 0.0);
        assert Decide(s, q) == ExitShort;
      } else {
        assert Decide(s, q) == Hold;
      }
    } else {
      assert Decide(s, q) == Hold;
    }
    assert Step(s, q, capital).Ok?;
    r := Ok(st);
  }

  /** The bar loop as the strategy runs it: from the initial state, one transition
      per bar, then the bar's value appended. */
  method SimulateLoop(quotes: seq<Quote>, capital: real) returns (r: Result<seq<real>, Error>)
    ensures r.Ok? <==> Simulate(Initial(capital), quotes, capital).Ok?
    ensures r.Ok? ==> r.value == Simulate(Initial(capital), quotes, capital).value.1
    ensures r.Err? ==> r.error == DivisionByZero
  {
    var st := Initial(capital);
    var values: seq<real> := [];
    var i := 0;
    while i < |quotes|
      invariant 0 <= i <= |quotes|
      invariant Simulate(Initial(capital), quotes[..i], capital).Ok?
      invariant Simulate(Initial(capital), quotes[..i], capital).value == (st, values)
    {
      var q := quotes[i];
      LoopStep(quotes, capital, i, st, values);
      var next := ApplyBar(st, q, capital);
      if next.Err? {
        NoRunPastFailure(quotes, capital, i + 1);
        return Err(DivisionByZero);
      }
      ghost var after := Simulate(Initial(capital), quotes[..i + 1], capital);
      assert after.Ok?;
      assert after.value.0 == next.value;
      assert after.value.1 == values + [Value(next.value, q.close)];
      st := next.value;
      var value := Valuation(st, q.close);
      values := values + [value];
      assert after.value.0 == st;
      assert after.value.1 == values;
      assert after.value == (st, values);
      i := i + 1;
    }
    assert quotes[..|quotes|] == quotes;
    r := Ok(values);
  }

  /** The valuation as the strategy writes it, one branch per position. */
  method Valuation(s: State, close: real) returns (v: real)
    requires Invariant(s)
    ensures v == Value(s, close)
  {
    if s.position == 0 {
      v := s.cash;
    } else if s.position == 1 {
      v := s.shares * close;
    } else {
      v := s.cash - s.shares * close;
    }
  }

  /** One more turn of the bar loop: bar i's step and value extend the run so far. */
  lemma LoopStep(quotes: seq<Quote>, capital: real, i: nat, st: State, values: seq<real>)
    requires i < |quotes|
    requires Simulate(Initial(capital), quotes[..i], capital).Ok?
    requires Simulate(Initial(capital), quotes[..i], capital).value == (st, values)
    ensures Invariant(st)
    ensures var next := Simulate(Initial(capital), quotes[..i + 1], capital);
      && (next.Ok? <==> Step(st, quotes[i], capital).Ok?)
      && (next.Ok? ==> next.value == (Step(st, quotes[i], capital).value,
                                      values + [Value(Step(st, quotes[i], capital).value, quotes[i].close)]))
  {
    assert quotes[..i + 1] == quotes[..i] + [quotes[i]];
    SimulateExtend(Initial(capital), quotes[..i], capital, quotes[i], st, values);
  }

  /** Extending the bars by one appends that bar's step and value. */
  lemma SimulateExtend(s: State, quotes: seq<Quote>, capital: real, q: Quote, p: State, values: seq<real>)
    requires Invariant(s)
    requires Simulate(s, quotes, capital) == Ok((p, values))
    ensures var next := Simulate(s, quotes + [q], capital);
      && (next.Ok? <==> Step(p, q, capital).Ok?)
      && (next.Ok? ==> next.value == (Step(p, q, capital).value, values + [Value(Step(p, q, capital).value, q.close)]))
  {
  }

  /** Whatever the first bar does, it is worth the capital: a long entry spends the
      capital's cash, a short entry resets to the capital, and holding keeps it. So a
      positive capital gives the value series the positive start its drawdown needs. */
  lemma FirstValueIsCapital(quotes: seq<Quote>, capital: real)
    requires |quotes| > 0
    requires Simulate(Initial(capital), quotes, capital).Ok?
    ensures Simulate(Initial(capital), quotes, capital).value.1[0] == capital
  {
    var s := Initial(capital);
    BarValue(s, quotes, capital, 0);
    assert quotes[..0] == [];
    if Decide(s, quotes[0]) == EnterShort {
      ShortEntry(s, quotes[0], capital);
    } else {
      StepKeepsBarValue(s, quotes[0], capital);
    }
  }

  lemma NoRunPastFailure(quotes: seq<Quote>, capital: real, n: nat)
    requires n <= |quotes|
    requires Simulate(Initial(capital), quotes[..n], capital).Err?
    ensures Simulate(Initial(capital), quotes, capital).Err?
  {
    if Simulate(Initial(capital), quotes, capital).Ok? {
      SimulatePrefix(Initial(capital), quotes, capital, n);
    }
  }

  /** A run fails exactly when some bar's transition fails from the state the earlier
      bars left. */
  lemma {:induction false} FailsExactlyAtAStep(s: State, quotes: seq<Quote>, capital: real)
    requires Invariant(s)
    ensures Simulate(s, quotes, capital).Err? <==>
      exists i :: 0 <= i < |quotes| && Simulate(s, quotes[..i], capital).Ok?
        && Step(Simulate(s, quotes[..i], capital).value.0, quotes[i], capital).Err?
  {
    if Simulate(s, quotes, capital).Err? {
      FailureHasAStep(s, quotes, capital);
    } else {
      forall i | 0 <= i < |quotes| && Simulate(s, quotes[..i], capital).Ok?
        ensures Step(Simulate(s, quotes[..i], capital).value.0, quotes[i], capital).Ok?
      {
        BarValue(s, quotes, capital, i);
      }
    }
  }

  /** The failing direction, by induction on the number of bars. */
  lemma {:induction false} FailureHasAStep(s: State, quotes: seq<Quote>, capital: real)
    requires Invariant(s)
    requires Simulate(s, quotes, capital).Err?
    ensures exists i ::
      && 0 <= i < |quotes|
      && Simulate(s, quotes[..i], capital).Ok?
      && Step(Simulate(s, quotes[..i], capital).value.0, quotes[i], capital).Err?
    decreases |quotes|
  {
    var n := |quotes| - 1;
    var p := quotes[..n];
    assert quotes[..n] == p;
    if Simulate(s, p, capital).Err? {
      FailureHasAStep(s, p, capital);
      var i :| 0 <= i < |p| && Simulate(s, p[..i], capital).Ok?
        && Step(Simulate(s, p[..i], capital).value.0, p[i], capital).Err?;
      assert p[..i] == quotes[..i];
      assert p[i] == quotes[i];
    } else {
      var prev := Simulate(s, p, capital).value;
      assert quotes == p + [quotes[n]];
      SimulateExtend(s, p, capital, quotes[n], prev.0, prev.1);
      assert Simulate(s, quotes[..n], capital).Ok? && Step(Simulate(s, quotes[..n], capital).value.0, quotes[n], capital).Err?;
    }
  }

  /** Only a zero close can make a run fail. */
  lemma FailureNeedsZeroClose(s: State, quotes: seq<Quote>, capital: real)
    requires Invariant(s)
    ensures Simulate(s, quotes, capital).Err? ==> exists t :: 0 <= t < |quotes| && quotes[t].close == 0.0
  {
    if Simulate(s, quotes, capital).Err? {
      FailureHasAStep(s, quotes, capital);
    }
  }

  // ---------------------------------------------------------------- the whole run

  /** The regressor, fitted on the training features and targets and applied to the
      test features. Its internals are not modelled: any function may stand for it. */
  type Regressor = (seq<seq<real>>, seq<real>, seq<seq<real>>) -> seq<real>

  /** The test rows extended with the predicted WMA3 change, the predicted next WMA3
      and the portfolio value. */
  datatype Outcome = Outcome(
    test: seq<FeatureRow>,
    predictedDiff: seq<real>,
    predictedWmaNext: seq<real>,
    portfolio: seq<real>)

  /** The feature table handed to the regressor: one row per processed row, whose
      entry i is that row's cell under the i-th feature column name. */
  function FeatureMatrix(rows: seq<FeatureRow>): (m: seq<seq<real>>)
    ensures |m| == |rows|
    ensures forall j :: 0 <= j < |rows| && |rows[j].lags| == LagCount ==> |m[j]| == |FeatureColumns()|
    ensures forall j, i :: 0 <= j < |rows| && |rows[j].lags| == LagCount && 0 <= i < |FeatureColumns()| ==>
      Cell(rows[j], FeatureColumns()[i]) == Some(m[j][i])
  {
    seq(|rows|, j requires 0 <= j < |rows| => FeatureVector(rows[j]))
  }

  /** The target column handed to the regressor, one entry per processed row. */
  function Targets(rows: seq<FeatureRow>): (y: seq<real>)
    ensures |y| == |rows|
    ensures forall j :: 0 <= j < |rows| ==> y[j] == rows[j].target
  {
    seq(|rows|, j requires 0 <= j < |rows| => rows[j].target)
  }

  /** What bar j of the loop reads from test row j: the predicted next WMA3, the
      tracks, the ATR and the close. */
  function Quotes(test: seq<FeatureRow>, predictedWmaNext: seq<real>): (q: seq<Quote>)
    requires |predictedWmaNext| == |test|
    ensures |q| == |test|
    ensures forall j :: 0 <= j < |q| ==>
      && q[j].predWma == predictedWmaNext[j]
      && q[j].upper == test[j].upper && q[j].lower == test[j].lower
      && q[j].atr == test[j].atr && q[j].close == test[j].bar.close
  {
    seq(|test|, j requires 0 <= j < |test| =>
      Quote(predictedWmaNext[j], test[j].upper, test[j].lower, test[j].atr, test[j].bar.close))
  }

  /** What the regressor predicts for the test rows after training on the training
      rows. */
  function Predict(model: Regressor, train: seq<FeatureRow>, test: seq<FeatureRow>): seq<real> {
    model(FeatureMatrix(train), Targets(train), FeatureMatrix(test))
  }

  /** The trading half of the run: the predicted next WMA3 of every test row, then
      the bar loop over the test rows. It fails only on a zero close. */
  function Trade(test: seq<FeatureRow>, predicted: seq<real>, capital: real): (r: Result<Outcome, Error>)
    requires |predicted| == |test|
    ensures r.Err? ==> r.error == DivisionByZero
    ensures r.Err? ==> exists j :: 0 <= j < |test| && test[j].bar.close == 0.0
    ensures (forall j :: 0 <= j < |test| ==> test[j].bar.close != 0.0) ==> r.Ok?
    ensures r.Ok? ==>
      && r.value.test == test
      && r.value.predictedDiff == predicted
      && |r.value.predictedWmaNext| == |test|
      && (forall i :: 0 <= i < |test| ==>
            r.value.predictedWmaNext[i] == test[i].wma + predicted[i])
    ensures r.Ok? ==>
      var sim := Simulate(Initial(capital), Quotes(r.value.test, r.value.predictedWmaNext), capital);
      sim.Ok? && sim.value.1 == r.value.portfolio && |r.value.portfolio| == |test|
  {
    var next := seq(|test|, j requires 0 <= j < |test| => test[j].wma + predicted[j]);
    var quotes := Quotes(test, next);
    FailureNeedsZeroClose(Initial(capital), quotes, capital);
    match Simulate(Initial(capital), quotes, capital)
    case Err(e) => Err(e)
    case Ok((_, values)) => Ok(Outcome(test, predicted, next, values))
  }

  /** The run from the processed rows on: split, predict, trade. It raises when no row
      falls on or after the split (before the regressor is consulted), when the
      regressor's output does not match the test rows, or on a zero-close entry. */
  function RunOnRows(rows: seq<FeatureRow>, split: int, capital: real, model: Regressor): (r: Result<Outcome, Error>)
    ensures r == Err(NoTestData) <==> forall j :: 0 <= j < |rows| ==> rows[j].bar.key < split
    ensures var train, test := TrainRows(rows, split), TestRows(rows, split);
      r == Err(PredictionLengthMismatch) <==> |test| > 0 && |Predict(model, train, test)| != |test|
    ensures var train, test := TrainRows(rows, split), TestRows(rows, split);
      r == Err(DivisionByZero) ==> exists j :: 0 <= j < |test| && test[j].bar.close == 0.0
    ensures var train, test := TrainRows(rows, split), TestRows(rows, split);
      && |test| > 0
      && |Predict(model, train, test)| == |test|
      && (forall j :: 0 <= j < |test| ==> test[j].bar.close != 0.0)
      ==> r.Ok?
    ensures r.Ok? ==>
      var train, test := TrainRows(rows, split), TestRows(rows, split);
      && |test| > 0
      && r == Trade(test, Predict(model, train, test), capital)
  {
    match Split(rows, split)
    case Err(e) => Err(e)
    case Ok((train, test)) =>
      var predicted := Predict(model, train, test);
      if |predicted| != |test| then Err(PredictionLengthMismatch)
      else Trade(test, predicted, capital)
  }

  /** The enhanced strategy end to end on the bars: feature preparation, then the
      run on the processed rows. With no zero close among the test rows and a
      prediction per test row, it succeeds as soon as some row lies on or after the
      split. */
  function Run(bars: seq<Bar>, std: Column, split: int, capital: real, model: Regressor): (r: Result<Outcome, Error>)
    requires |std| == |bars|
    ensures var rows := PrepareFeatures(bars, std).0;
      r == Err(NoTestData) <==> forall j :: 0 <= j < |rows| ==> rows[j].bar.key < split
    ensures var rows := PrepareFeatures(bars, std).0;
      var train, test := TrainRows(rows, split), TestRows(rows, split);
      && |test| > 0
      && |Predict(model, train, test)| == |test|
      && (forall j :: 0 <= j < |test| ==> test[j].bar.close != 0.0)
      ==> r.Ok?
    ensures r.Ok? ==>
      && r.value.test == TestRows(PrepareFeatures(bars, std).0, split)
      && |r.value.predictedDiff| == |r.value.predictedWmaNext| == |r.value.portfolio| == |r.value.test|
  {
    RunOnRows(PrepareFeatures(bars, std).0, split, capital, model)
  }

  /** A successful run's value series starts at the capital. */
  lemma RunStartsAtCapital(bars: seq<Bar>, std: Column, split: int, capital: real, model: Regressor)
    requires |std| == |bars|
    requires Run(bars, std, split, capital, model).Ok?
    ensures Run(bars, std, split, capital, model).value.portfolio[0] == capital
  {
    var o := Run(bars, std, split, capital, model).value;
    FirstValueIsCapital(Quotes(o.test, o.predictedWmaNext), capital);
  }

  /** On ascending bars the regressor is trained only on rows that precede every
      test row: the processed rows are the training rows followed by the test rows. */
  lemma TrainPrecedesTest(bars: seq<Bar>, std: Column, split: int)
    requires |std| == |bars| && Ascending(bars)
    ensures var rows := PrepareFeatures(bars, std).0;
      TrainRows(rows, split) + TestRows(rows, split) == rows
  {
    PreparedRowsAscending(bars, std);
    SplitIsPrefixAndSuffix(PrepareFeatures(bars, std).0, split);
  }
}
