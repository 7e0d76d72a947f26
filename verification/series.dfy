/** Columns of a price frame and the reductions the indicators are built from. */
module Series {
  import opened Wrappers

  /** A data-frame column whose cells may be undefined. */
  type Column = seq<Option<real>>

  /** A column with every cell defined. */
  function Lift(x: seq<real>): Column {
    seq(|x|, t requires 0 <= t < |x| => Some(x[t]))
  }

  predicate AllDefined(w: Column) {
    forall i :: 0 <= i < |w| ==> w[i].Some?
  }

  /** The values of a column that has no undefined cell. */
  function Values(w: Column): seq<real>
    requires AllDefined(w)
  {
    seq(|w|, i requires 0 <= i < |w| => w[i].value)
  }

  /** `col` moved `k` rows down (a negative `k` moves it up); the rows shifted in
      from outside the column are undefined. */
  function Shift(col: Column, k: int): Column {
    seq(|col|, t requires 0 <= t < |col| => if 0 <= t - k < |col| then col[t - k] else None)
  }

  /** Cell-wise difference; undefined if either operand is. */
  function Minus(a: Option<real>, b: Option<real>): Option<real> {
    if a.Some? && b.Some? then Some(a.value - b.value) else None
  }

  function AbsOf(a: Option<real>): Option<real> {
    if a.Some? then Some(Abs(a.value)) else None
  }

  function Abs(x: real): real {
    if x < 0.0 then -x else x
  }

  function Max(a: real, b: real): real {
    if a < b then b else a
  }

  /** `x <= bound`, false when the bound is undefined (an IEEE comparison with NaN). */
  predicate AtMost(x: real, bound: Option<real>) {
    bound.Some? && x <= bound.value
  }

  /** `x >= bound`, false when the bound is undefined. */
  predicate AtLeast(x: real, bound: Option<real>) {
    bound.Some? && x >= bound.value
  }

  predicate Within(w: seq<real>, lo: real, hi: real) {
    forall i :: 0 <= i < |w| ==> lo <= w[i] <= hi
  }

  /** Sum of a window, accumulated oldest value first. */
  function Sum(w: seq<real>): real {
    if |w| == 0 then 0.0 else Sum(w[..|w| - 1]) + w[|w| - 1]
  }

  function Mean(w: seq<real>): real
    requires |w| > 0
  {
    Sum(w) / (|w| as real)
  }

  /** A sum of values in [lo, hi] lies between |w|·lo and |w|·hi. */
  lemma {:induction false} SumWithin(w: seq<real>, lo: real, hi: real)
    requires Within(w, lo, hi)
    ensures (|w| as real) * lo <= Sum(w) <= (|w| as real) * hi
  {
    if |w| > 0 {
      var n := |w| - 1;
      assert Within(w[..n], lo, hi) by {
        forall i | 0 <= i < n ensures lo <= w[..n][i] <= hi {
          assert w[..n][i] == w[i];
        }
      }
      SumWithin(w[..n], lo, hi);
      assert (|w| as real) * lo == (n as real) * lo + lo;
      assert (|w| as real) * hi == (n as real) * hi + hi;
    }
  }

  /** The mean of a window lies between any lower and upper bound of its values. */
  lemma MeanWithin(w: seq<real>, lo: real, hi: real)
    requires |w| > 0 && Within(w, lo, hi)
    ensures lo <= Mean(w) <= hi
  {
    SumWithin(w, lo, hi);
    var n := |w| as real;
    assert Mean(w) * n == Sum(w);
  }

  /** The sequence of `n` copies of `c`. */
  function Constant(n: nat, c: real): (s: seq<real>)
    ensures |s| == n
    ensures forall i :: 0 <= i < n ==> s[i] == c
  {
    if n == 0 then [] else Constant(n - 1, c) + [c]
  }

  /** Running maximum: entry t is the largest of v[0..t]. */
  function CumMax(v: seq<real>): (m: seq<real>)
    ensures |m| == |v|
    ensures forall t, j :: 0 <= j <= t < |v| ==> v[j] <= m[t]
    ensures forall t :: 0 <= t < |v| ==> m[t] in v[..t + 1]
  {
    if |v| == 0 then []
    else
      var p := CumMax(v[..|v| - 1]);
      var last := v[|v| - 1];
      p + [if |p| == 0 then last else Max(p[|p| - 1], last)]
  }

  /** Smallest element of a non-empty sequence. */
  function MinOf(s: seq<real>): (r: real)
    requires |s| > 0
    ensures forall i :: 0 <= i < |s| ==> r <= s[i]
    ensures exists i :: 0 <= i < |s| && r == s[i]
  {
    if |s| == 1 then s[0]
    else
      var m := MinOf(s[..|s| - 1]);
      if s[|s| - 1] < m then s[|s| - 1] else m
  }
}
