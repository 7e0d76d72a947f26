/** The classical strategy: long-only mean reversion on Bollinger bands computed over
    the slice it is given. It buys when the close is at or below the lower track and
    sells when the close is at or above the upper track. */
module Classical {
  import opened Wrappers
  import opened Series
  import opened Indicators
  import opened Market

  /** Portfolio state. `position` is 0 (flat) or 1 (long). */
  datatype State = State(position: int, cash: real, shares: real)

  /** What one bar supplies: its close and the two tracks, which are undefined
      during the band warm-up. */
  datatype Signal = Signal(close: real, upper: Option<real>, lower: Option<real>)

  function Initial(capital: real): State {
    State(0, capital, 0.0)
  }

  /** The strategy never shorts: flat with no shares, or long with no cash. */
  predicate Invariant(s: State) {
    || (s.position == 0 && s.shares == 0.0)
    || (s.position == 1 && s.cash == 0.0)
  }

  /** The bars' closes with the tracks of the bands recomputed over these bars. */
  function Signals(bars: seq<Bar>, std: Column, d: nat, k: real): (sig: seq<Signal>)
    requires |std| == |bars|
    ensures |sig| == |bars|
    ensures var b := BollingerBands(Closes(bars), std, d, k);
      forall t :: 0 <= t < |sig| ==>
        sig[t].close == bars[t].close && sig[t].upper == b.upper[t] && sig[t].lower == b.lower[t]
  {
    var b := BollingerBands(Closes(bars), std, d, k);
    seq(|bars|, t requires 0 <= t < |bars| => Signal(bars[t].close, b.upper[t], b.lower[t]))
  }

  /** One bar's transition: buy with all the cash from flat on close ≤ lower, else sell
      everything from long on close ≥ upper. Buying divides by the close and raises on
      a zero close. Comparisons with an undefined track are false. */
  function Step(s: State, g: Signal): (r: Result<State, Error>)
    ensures Invariant(s) && r.Ok? ==> Invariant(r.value)
    ensures r.Err? <==> s.position == 0 && AtMost(g.close, g.lower) && g.close == 0.0
    ensures r.Err? ==> r.error == DivisionByZero
  {
    if s.position == 0 && AtMost(g.close, g.lower) then
      if g.close == 0.0 then Err(DivisionByZero) else Ok(State(1, 0.0, s.cash / g.close))
    else if s.position == 1 && AtLeast(g.close, g.upper) then
      Ok(State(0, s.shares * g.close, 0.0))
    else Ok(s)
  }

  /** Mark-to-market value: cash plus the shares at the close. Under the invariant a
      flat book is worth its cash and a long book its shares at the close. */
  function Value(s: State, close: real): (v: real)
    ensures Invariant(s) && s.position == 0 ==> v == s.cash
    ensures Invariant(s) && s.position == 1 ==> v == s.shares * close
  {
    s.cash + s.shares * close
  }

  /** The run starts flat with the capital in cash and is worth the capital. */
  lemma InitialState(capital: real, close: real)
    ensures Invariant(Initial(capital))
    ensures Initial(capital).position == 0 && Initial(capital).shares == 0.0
    ensures Initial(capital).cash == capital
    ensures Value(Initial(capital), close) == capital
  {
  }

  /** From flat the position opens exactly when the close is at or below a defined
      lower track; all the cash buys shares at the close, so the bar is worth the
      cash held before entry. Otherwise nothing changes. */
  lemma Entry(s: State, g: Signal)
    requires Invariant(s) && s.position == 0 && g.close != 0.0
    ensures var s' := Step(s, g).value;
      && Step(s, g).Ok?
      && (s'.position == 1 <==> g.lower.Some? && g.close <= g.lower.value)
      && (s'.position == 1 ==> s'.shares == s.cash / g.close && s'.cash == 0.0 && Value(s', g.close) == s.cash)
      && (s'.position != 1 ==> s' == s)
  {
  }

  /** From long the position closes exactly when the close is at or above a defined
      upper track; the shares are sold at the close, so the bar is worth the long
      mark-to-market. Otherwise nothing changes. */
  lemma Exit(s: State, g: Signal)
    requires Invariant(s) && s.position == 1
    ensures var s' := Step(s, g).value;
      && Step(s, g).Ok?
      && (s'.position == 0 <==> g.upper.Some? && g.close >= g.upper.value)
      && (s'.position == 0 ==> s'.cash == s.shares * g.close && s'.shares == 0.0 && Value(s', g.close) == Value(s, g.close))
      && (s'.position != 0 ==> s' == s)
  {
  }

  /** No transition changes the value of the bar it fires on. */
  lemma StepKeepsBarValue(s: State, g: Signal)
    requires Invariant(s) && Step(s, g).Ok?
    ensures Value(Step(s, g).value, g.close) == Value(s, g.close)
  {
  }

  // ---------------------------------------------------------------- the bar loop

  /** Runs the state machine over the bars in order, returning the final state and
      one value per bar, taken after that bar's transition. */
  function Simulate(s: State, sigs: seq<Signal>): (r: Result<(State, seq<real>), Error>)
    requires Invariant(s)
    ensures r.Ok? ==> Invariant(r.value.0) && |r.value.1| == |sigs|
    ensures r.Err? ==> r.error == DivisionByZero
    decreases |sigs|
  {
    if |sigs| == 0 then Ok((s, []))
    else
      match Simulate(s, sigs[..|sigs| - 1])
      case Err(e) => Err(e)
      case Ok((p, values)) =>
        var g := sigs[|sigs| - 1];
        match Step(p, g)
        case Err(e) => Err(e)
        case Ok(p') => Ok((p', values + [Value(p', g.close)]))
  }

  /** The classical strategy over a slice of bars with band window `d` and
      multiplier `k`. */
  function Run(bars: seq<Bar>, std: Column, d: nat, k: real, capital: real): (r: Result<seq<real>, Error>)
    requires |std| == |bars|
    ensures r.Ok? ==> |r.value| == |bars|
    ensures r.Err? ==> r.error == DivisionByZero
    ensures r.Err? ==> exists t :: 0 <= t < |bars| && bars[t].close == 0.0
    ensures (forall t :: 0 <= t < |bars| ==> bars[t].close != 0.0) ==> r.Ok?
  {
    FailureNeedsZeroClose(Initial(capital), Signals(bars, std, d, k));
    match Simulate(Initial(capital), Signals(bars, std, d, k))
    case Err(e) => Err(e)
    case Ok((_, values)) => Ok(values)
  }

  /** Extending the bars by one appends that bar's step and value. */
  lemma SimulateExtend(s: State, sigs: seq<Signal>, g: Signal, p: State, values: seq<real>)
    requires Invariant(s)
    requires Simulate(s, sigs) == Ok((p, values))
    ensures var next := Simulate(s, sigs + [g]);
      && (next.Ok? <==> Step(p, g).Ok?)
      && (next.Ok? ==> next.value == (Step(p, g).value, values + [Value(Step(p, g).value, g.close)]))
  {
  }

  /** The run is causal: the first n values depend only on the first n bars. */
  lemma {:induction false} SimulatePrefix(s: State, sigs: seq<Signal>, n: nat)
    requires Invariant(s) && n <= |sigs|
    requires Simulate(s, sigs).Ok?
    ensures Simulate(s, sigs[..n]).Ok?
    ensures Simulate(s, sigs[..n]).value.1 == Simulate(s, sigs).value.1[..n]
    decreases |sigs|
  {
    if n < |sigs| {
      var m := |sigs| - 1;
      SimulatePrefix(s, sigs[..m], n);
      assert sigs[..m][..n] == sigs[..n];
      var values := Simulate(s, sigs[..m]).value.1;
      assert Simulate(s, sigs).value.1[..m] == values;
    } else {
      assert sigs[..n] == sigs;
    }
  }

  /** Bar i's value is cash + shares·close of the state after bar i's transition. */
  lemma BarValue(s: State, sigs: seq<Signal>, i: nat)
    requires Invariant(s) && i < |sigs|
    requires Simulate(s, sigs).Ok?
    ensures var before := Simulate(s, sigs[..i]);
      var after := Simulate(s, sigs[..i + 1]);
      && before.Ok? && after.Ok?
      && Step(before.value.0, sigs[i]) == Ok(after.value.0)
      && Simulate(s, sigs).value.1[i] == Value(after.value.0, sigs[i].close)
  {
    SimulatePrefix(s, sigs, i + 1);
    SimulatePrefix(s, sigs, i);
    assert sigs[..i + 1][..i] == sigs[..i];
    assert Simulate(s, sigs).value.1[..i + 1][i] == Simulate(s, sigs).value.1[i];
  }

  /** While no bar has its close at or below the lower track, the strategy stays flat
      with the capital in cash, and every bar is worth the capital. */
  lemma {:induction false} NoEntryKeepsCapital(sigs: seq<Signal>, capital: real)
    requires forall t :: 0 <= t < |sigs| ==> !AtMost(sigs[t].close, sigs[t].lower)
    ensures Simulate(Initial(capital), sigs).Ok?
    ensures Simulate(Initial(capital), sigs).value == (Initial(capital), Constant(|sigs|, capital))
  {
    if |sigs| > 0 {
      var m := |sigs| - 1;
      var p := sigs[..m];
      assert forall t :: 0 <= t < |p| ==> !AtMost(p[t].close, p[t].lower) by {
        forall t | 0 <= t < |p| ensures !AtMost(p[t].close, p[t].lower) {
          assert p[t] == sigs[t];
        }
      }
      NoEntryKeepsCapital(p, capital);
      assert sigs == p + [sigs[m]];
      SimulateExtend(Initial(capital), p, sigs[m], Initial(capital), Constant(m, capital));
      assert Step(Initial(capital), sigs[m]).value == Initial(capital);
    }
  }

  /** During the band warm-up (the first d−1 bars) both tracks are undefined. */
  lemma WarmupTracksUndefined(bars: seq<Bar>, std: Column, d: nat, k: real, t: int)
    requires |std| == |bars| && d >= 1 && 0 <= t < |bars| && t < d - 1
    ensures Signals(bars, std, d, k)[t].lower.None? && Signals(bars, std, d, k)[t].upper.None?
  {
  }

  /** No bar of the warm-up can open a position. */
  lemma WarmupNoEntry(bars: seq<Bar>, std: Column, d: nat, k: real, n: nat)
    requires |std| == |bars| && d >= 1 && n <= |bars| && n <= d - 1
    ensures var sigs := Signals(bars, std, d, k)[..n];
      forall t :: 0 <= t < |sigs| ==> !AtMost(sigs[t].close, sigs[t].lower)
  {
  }

  /** No trade can happen during the warm-up, so the first d−1 values (or all of them
      on a shorter slice) equal the capital. */
  lemma WarmupHoldsCapital(bars: seq<Bar>, std: Column, d: nat, k: real, capital: real)
    requires |std| == |bars| && d >= 1
    requires Run(bars, std, d, k, capital).Ok?
    ensures forall t :: 0 <= t < |bars| && t < d - 1 ==> Run(bars, std, d, k, capital).value[t] == capital
  {
    var sigs := Signals(bars, std, d, k);
    var n := if |bars| < d - 1 then |bars| else d - 1;
    WarmupNoEntry(bars, std, d, k, n);
    NoEntryKeepsCapital(sigs[..n], capital);
    SimulatePrefix(Initial(capital), sigs, n);
    var values := Run(bars, std, d, k, capital).value;
    assert values == Simulate(Initial(capital), sigs).value.1;
    forall t | 0 <= t < |bars| && t < d - 1 ensures values[t] == capital {
      assert values[..n][t] == values[t];
    }
  }

  /** If the close never reaches the lower track, no trade ever happens and every
      bar is worth the capital. */
  lemma NoSignalNoTrade(bars: seq<Bar>, std: Column, d: nat, k: real, capital: real)
    requires |std| == |bars|
    requires forall t :: 0 <= t < |bars| ==>
               !AtMost(bars[t].close, BollingerBands(Closes(bars), std, d, k).lower[t])
    ensures Run(bars, std, d, k, capital).Ok?
    ensures Run(bars, std, d, k, capital).value == Constant(|bars|, capital)
  {
    NoEntryKeepsCapital(Signals(bars, std, d, k), capital);
  }

  /** On a constant close c with zero STD, the lower track equals c from bar d−1 on. */
  lemma ConstantSeriesLowerTrack(bars: seq<Bar>, std: Column, d: nat, k: real, c: real, t: int)
    requires |std| == |bars| && 1 <= d && d - 1 <= t < |bars|
    requires forall j :: 0 <= j < |bars| ==> bars[j].close == c
    requires std[t] == Some(0.0)
    ensures Signals(bars, std, d, k)[t].lower == Some(c)
    ensures Signals(bars, std, d, k)[t].close == c
  {
    var b := BollingerBands(Closes(bars), std, d, k);
    assert Within(Closes(bars)[t + 1 - d .. t + 1], c, c);
    RollingMeanWithinWindow(Closes(bars), d, t, c, c);
    BandsShape(Closes(bars), std, d, k, t);
    assert b.ma[t] == Some(c);
    assert b.lower[t] == Some(c);
    assert Signals(bars, std, d, k)[t].lower == b.lower[t];
  }

  /** On a constant close c ≠ 0 with zero STD the lower track equals the close as
      soon as it is defined, so the strategy buys on bar d−1; the value series
      still stays at the capital. */
  lemma ConstantSeriesEntersAfterWarmup(bars: seq<Bar>, std: Column, d: nat, k: real, capital: real, c: real)
    requires |std| == |bars| && 1 <= d <= |bars| && c != 0.0
    requires forall t :: 0 <= t < |bars| ==> bars[t].close == c
    requires forall t :: d - 1 <= t < |bars| ==> std[t] == Some(0.0)
    ensures Simulate(Initial(capital), Signals(bars, std, d, k)[..d]).Ok?
    ensures Simulate(Initial(capital), Signals(bars, std, d, k)[..d]).value
              == (State(1, 0.0, capital / c), Constant(d, capital))
  {
    var sigs := Signals(bars, std, d, k);
    var m := d - 1;
    WarmupNoEntry(bars, std, d, k, m);
    NoEntryKeepsCapital(sigs[..m], capital);
    ConstantSeriesLowerTrack(bars, std, d, k, c, m);
    EnterAfterFlatPrefix(sigs, capital, m, c);
  }

  lemma EnterAfterFlatPrefix(sigs: seq<Signal>, capital: real, m: nat, c: real)
    requires m < |sigs| && c != 0.0
    requires Simulate(Initial(capital), sigs[..m]).Ok?
    requires Simulate(Initial(capital), sigs[..m]).value == (Initial(capital), Constant(m, capital))
    requires sigs[m].lower == Some(c) && sigs[m].close == c
    ensures Simulate(Initial(capital), sigs[..m + 1]).Ok?
    ensures Simulate(Initial(capital), sigs[..m + 1]).value
              == (State(1, 0.0, capital / c), Constant(m + 1, capital))
  {
    assert sigs[..m + 1] == sigs[..m] + [sigs[m]];
    SimulateExtend(Initial(capital), sigs[..m], sigs[m], Initial(capital), Constant(m, capital));
    var s' := State(1, 0.0, capital / c);
    assert Step(Initial(capital), sigs[m]).value == s';
    assert capital / c * c == capital;
    assert Value(s', c) == capital;
    assert Constant(m + 1, capital) == Constant(m, capital) + [capital];
  }

  // ---------------------------------------------------------------- imperative form

  /** One bar's transition written as the strategy's if/elif chain. */
  method ApplyBar(s: State, g: Signal) returns (r: Result<State, Error>)
    ensures r.Ok? <==> Step(s, g).Ok?
    ensures r.Ok? ==> r.value == Step(s, g).value
  {
    var st := s;
    if st.position == 0 && AtMost(g.close, g.lower) {
      if g.close == 0.0 {
        return Err(DivisionByZero);
      }
      st := st.(position := 1, shares := st.cash / g.close);
      st := st.(cash := 0.0);
    } else if st.position == 1 && AtLeast(g.close, g.upper) {
      st := st.(position := 0, cash := st.shares * g.close);
      st := st.(shares := 0.0);
    }
    r := Ok(st);
  }

  /** The bar loop as the strategy runs it: from the initial state, one transition
      per bar, then cash + shares·close appended. */
  method RunLoop(sigs: seq<Signal>, capital: real) returns (r: Result<seq<real>, Error>)
    ensures r.Ok? <==> Simulate(Initial(capital), sigs).Ok?
    ensures r.Ok? ==> r.value == Simulate(Initial(capital), sigs).value.1
    ensures r.Err? ==> r.error == DivisionByZero
  {
    var st := Initial(capital);
    var values: seq<real> := [];
    var i := 0;
    while i < |sigs|
      invariant 0 <= i <= |sigs|
      invariant Simulate(Initial(capital), sigs[..i]).Ok?
      invariant Simulate(Initial(capital), sigs[..i]).value == (st, values)
    {
      var g := sigs[i];
      LoopStep(sigs, capital, i, st, values);
      var next := ApplyBar(st, g);
      if next.Err? {
        NoRunPastFailure(sigs, capital, i + 1);
        return Err(DivisionByZero);
      }
      ghost var after := Simulate(Initial(capital), sigs[..i + 1]);
      assert after.Ok?;
      assert after.value.0 == next.value;
      assert after.value.1 == values + [Value(next.value, g.close)];
      st := next.value;
      var value := Valuation(st, g.close);
      values := values + [value];
      assert after.value.0 == st;
      assert after.value.1 == values;
      assert after.value == (st, values);
      i := i + 1;
    }
    assert sigs[..|sigs|] == sigs;
    r := Ok(values);
  }

  /** The valuation as the strategy writes it. */
  method Valuation(s: State, close: real) returns (v: real)
    ensures v == Value(s, close)
  {
    v := s.cash + s.shares * close;
  }

  /** One more turn of the bar loop: bar i's step and value extend the run so far. */
  lemma LoopStep(sigs: seq<Signal>, capital: real, i: nat, st: State, values: seq<real>)
    requires i < |sigs|
    requires Simulate(Initial(capital), sigs[..i]).Ok?
    requires Simulate(Initial(capital), sigs[..i]).value == (st, values)
    ensures var next := Simulate(Initial(capital), sigs[..i + 1]);
      && (next.Ok? <==> Step(st, sigs[i]).Ok?)
      && (next.Ok? ==> next.value == (Step(st, sigs[i]).value,
                                      values + [Value(Step(st, sigs[i]).value, sigs[i].close)]))
  {
    assert sigs[..i + 1] == sigs[..i] + [sigs[i]];
    SimulateExtend(Initial(capital), sigs[..i], sigs[i], st, values);
  }

  /** A run fails exactly when some bar's transition fails from the state the earlier
      bars left. */
  lemma {:induction false} FailsExactlyAtAStep(s: State, sigs: seq<Signal>)
    requires Invariant(s)
    ensures Simulate(s, sigs).Err? <==>
      exists i :: 0 <= i < |sigs| && Simulate(s, sigs[..i]).Ok?
        && Step(Simulate(s, sigs[..i]).value.0, sigs[i]).Err?
  {
    if Simulate(s, sigs).Err? {
      FailureHasAStep(s, sigs);
    } else {
      forall i | 0 <= i < |sigs| && Simulate(s, sigs[..i]).Ok?
        ensures Step(Simulate(s, sigs[..i]).value.0, sigs[i]).Ok?
      {
        BarValue(s, sigs, i);
      }
    }
  }

  /** The failing direction, by induction on the number of bars. */
  lemma {:induction false} FailureHasAStep(s: State, sigs: seq<Signal>)
    requires Invariant(s)
    requires Simulate(s, sigs).Err?
    ensures exists i ::
      && 0 <= i < |sigs|
      && Simulate(s, sigs[..i]).Ok?
      && Step(Simulate(s, sigs[..i]).value.0, sigs[i]).Err?
    decreases |sigs|
  {
    var n := |sigs| - 1;
    var p := sigs[..n];
    assert sigs[..n] == p;
    if Simulate(s, p).Err? {
      FailureHasAStep(s, p);
      var i :| 0 <= i < |p| && Simulate(s, p[..i]).Ok?
        && Step(Simulate(s, p[..i]).value.0, p[i]).Err?;
      assert p[..i] == sigs[..i];
      assert p[i] == sigs[i];
    } else {
      assert sigs == p + [sigs[n]];
      assert Simulate(s, sigs[..n]).Ok? && Step(Simulate(s, sigs[..n]).value.0, sigs[n]).Err?;
    }
  }

  /** Only a zero close can make a run fail. */
  lemma FailureNeedsZeroClose(s: State, sigs: seq<Signal>)
    requires Invariant(s)
    ensures Simulate(s, sigs).Err? ==> exists t :: 0 <= t < |sigs| && sigs[t].close == 0.0
  {
    if Simulate(s, sigs).Err? {
      FailureHasAStep(s, sigs);
    }
  }

  /** While the close stays at c, no transition changes what the portfolio is worth at
      c, so every bar is worth what the starting state is worth at c. */
  lemma {:induction false} ConstantCloseKeepsValue(s: State, sigs: seq<Signal>, c: real)
    requires Invariant(s)
    requires forall t :: 0 <= t < |sigs| ==> sigs[t].close == c
    requires Simulate(s, sigs).Ok?
    ensures Value(Simulate(s, sigs).value.0, c) == Value(s, c)
    ensures Simulate(s, sigs).value.1 == Constant(|sigs|, Value(s, c))
    decreases |sigs|
  {
    if |sigs| > 0 {
      var n := |sigs| - 1;
      var p := sigs[..n];
      assert forall t :: 0 <= t < |p| ==> p[t].close == c by {
        forall t | 0 <= t < |p| ensures p[t].close == c {
          assert p[t] == sigs[t];
        }
      }
      assert sigs == p + [sigs[n]];
      var prev := Simulate(s, p);
      assert prev.Ok?;
      ConstantCloseKeepsValue(s, p, c);
      SimulateExtend(s, p, sigs[n], prev.value.0, prev.value.1);
      StepKeepsBarValue(prev.value.0, sigs[n]);
      assert Constant(n + 1, Value(s, c)) == Constant(n, Value(s, c)) + [Value(s, c)];
    }
  }

  /** On a constant non-zero close the run succeeds and every bar is worth the
      capital, whatever trades the bands trigger. */
  lemma ConstantCloseHoldsCapital(bars: seq<Bar>, std: Column, d: nat, k: real, capital: real, c: real)
    requires |std| == |bars| && c != 0.0
    requires forall t :: 0 <= t < |bars| ==> bars[t].close == c
    ensures Run(bars, std, d, k, capital).Ok?
    ensures Run(bars, std, d, k, capital).value == Constant(|bars|, capital)
  {
    var sigs := Signals(bars, std, d, k);
    assert forall t :: 0 <= t < |sigs| ==> sigs[t].close == c;
    FailureNeedsZeroClose(Initial(capital), sigs);
    ConstantCloseKeepsValue(Initial(capital), sigs, c);
  }

  /** The first bar is worth the capital whether or not it buys. */
  lemma RunStartsAtCapital(bars: seq<Bar>, std: Column, d: nat, k: real, capital: real)
    requires |std| == |bars| && |bars| > 0
    requires Run(bars, std, d, k, capital).Ok?
    ensures Run(bars, std, d, k, capital).value[0] == capital
  {
    var sigs := Signals(bars, std, d, k);
    BarValue(Initial(capital), sigs, 0);
    assert sigs[..0] == [];
    StepKeepsBarValue(Initial(capital), sigs[0]);
  }

  lemma NoRunPastFailure(sigs: seq<Signal>, capital: real, n: nat)
    requires n <= |sigs|
    requires Simulate(Initial(capital), sigs[..n]).Err?
    ensures Simulate(Initial(capital), sigs).Err?
  {
    if Simulate(Initial(capital), sigs).Ok? {
      SimulatePrefix(Initial(capital), sigs, n);
    }
  }
}
