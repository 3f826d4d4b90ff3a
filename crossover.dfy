/** The moving-average crossover signal of the trading walkthrough: two
    rolling means of the close price, a long flag where the short average
    is above the long one, a short flag where it is below, and their sum as
    the position held. A rolling mean is undefined (NaN in pandas) until
    its window is full; a comparison with an undefined value is false. */
module Crossover {
  import opened Numeric

  /** A value that may be undefined: `None` is pandas' NaN. */
  datatype Option<T> = None | Some(value: T)

  /** The mean of a non-empty run of prices. */
  function Mean(s: seq<real>): real
    requires |s| > 0
  {
    Sum(s) / (|s| as real)
  }

  /** `close.rolling(window).mean()`: row `t` is the mean of the `window`
      closes ending at `t`, and undefined while fewer than `window` rows
      exist. */
  function RollingMean(close: seq<real>, window: nat): (m: seq<Option<real>>)
    requires window >= 1
    ensures |m| == |close|
    ensures forall t :: 0 <= t < |close| ==> (m[t].Some? <==> t >= window - 1)
  {
    seq(|close|, t requires 0 <= t < |close| =>
      if t + 1 < window then None else Some(Mean(close[t + 1 - window .. t + 1])))
  }

  lemma {:induction false} SumBounds(s: seq<real>, lo: real, hi: real)
    requires forall k :: 0 <= k < |s| ==> lo <= s[k] <= hi
    ensures lo * (|s| as real) <= Sum(s) <= hi * (|s| as real)
  {
    if s != [] {
      SumBounds(s[1..], lo, hi);
      assert lo * (|s| as real) == lo + lo * (|s[1..]| as real);
      assert hi * (|s| as real) == hi + hi * (|s[1..]| as real);
    }
  }

  lemma MulDivCancel(a: real, n: real)
    requires n > 0.0
    ensures a * n / n == a
  {
  }

  /** A rolling mean lies between the lowest and the highest close of its
      window. */
  lemma RollingMeanBounds(close: seq<real>, window: nat, t: nat, lo: real, hi: real)
    requires window >= 1 && window - 1 <= t < |close|
    requires forall k :: t + 1 - window <= k <= t ==> lo <= close[k] <= hi
    ensures RollingMean(close, window)[t].Some?
    ensures lo <= RollingMean(close, window)[t].value <= hi
  {
    var s := close[t + 1 - window .. t + 1];
    var n := window as real;
    forall k | 0 <= k < |s|
      ensures lo <= s[k] <= hi
    {
      assert s[k] == close[t + 1 - window + k];
    }
    SumBounds(s, lo, hi);
    assert |s| as real == n;
    DivMonotone(lo * n, Sum(s), n);
    DivMonotone(Sum(s), hi * n, n);
    MulDivCancel(lo, n);
    MulDivCancel(hi, n);
    assert RollingMean(close, window)[t] == Some(Sum(s) / n);
  }

  /** A rolling mean looks only backwards: two close series that agree up
      to row `t` have the same rolling mean up to row `t`. */
  lemma RollingMeanCausal(a: seq<real>, b: seq<real>, window: nat, t: nat)
    requires window >= 1 && t < |a| && t < |b| && a[..t + 1] == b[..t + 1]
    ensures forall s :: 0 <= s <= t ==> RollingMean(a, window)[s] == RollingMean(b, window)[s]
  {
    forall s | 0 <= s <= t
      ensures RollingMean(a, window)[s] == RollingMean(b, window)[s]
    {
      if s + 1 >= window {
        assert a[s + 1 - window .. s + 1] == a[..t + 1][s + 1 - window .. s + 1];
        assert b[s + 1 - window .. s + 1] == b[..t + 1][s + 1 - window .. s + 1];
      }
    }
  }

  /** `np.where(short_mavg > long_mavg, 1, 0)` at one row. */
  function LongFlag(shortMavg: Option<real>, longMavg: Option<real>): (f: int)
    ensures f == 0 || f == 1
    ensures f == 1 <==> shortMavg.Some? && longMavg.Some? && shortMavg.value > longMavg.value
  {
    if shortMavg.Some? && longMavg.Some? && shortMavg.value > longMavg.value then 1 else 0
  }

  /** `np.where(short_mavg < long_mavg, -1, 0)` at one row. */
  function ShortFlag(shortMavg: Option<real>, longMavg: Option<real>): (f: int)
    ensures f == 0 || f == -1
    ensures f == -1 <==> shortMavg.Some? && longMavg.Some? && shortMavg.value < longMavg.value
  {
    if shortMavg.Some? && longMavg.Some? && shortMavg.value < longMavg.value then -1 else 0
  }

  /** The position held at one row, `long_positions + short_positions`: it
      is three-valued, long exactly when the short average is above the
      long one, short exactly when below, and flat when they are equal or
      either is undefined. */
  function Position(shortMavg: Option<real>, longMavg: Option<real>): (p: int)
    ensures -1 <= p <= 1
    ensures p == 1 <==> shortMavg.Some? && longMavg.Some? && shortMavg.value > longMavg.value
    ensures p == -1 <==> shortMavg.Some? && longMavg.Some? && shortMavg.value < longMavg.value
    ensures p == 0 <==> shortMavg.None? || longMavg.None? || shortMavg.value == longMavg.value
  {
    LongFlag(shortMavg, longMavg) + ShortFlag(shortMavg, longMavg)
  }

  /** The signal columns of the data frame. */
  datatype Signals = Signals(
    shortMavg: seq<Option<real>>, longMavg: seq<Option<real>>,
    longPositions: seq<int>, shortPositions: seq<int>, positions: seq<int>)

  /** The signal cell: both rolling means, both flag columns and the
      position column, row by row. */
  function GenerateSignals(close: seq<real>, shortWindow: nat, longWindow: nat): (s: Signals)
    requires shortWindow >= 1 && longWindow >= 1
    ensures |s.shortMavg| == |s.longMavg| == |s.longPositions| == |s.shortPositions| == |s.positions| == |close|
    ensures forall t :: 0 <= t < |close| ==>
              s.longPositions[t] in {0, 1} && s.shortPositions[t] in {-1, 0}
  {
    var sm := RollingMean(close, shortWindow);
    var lm := RollingMean(close, longWindow);
    Signals(sm, lm,
            seq(|close|, t requires 0 <= t < |close| => LongFlag(sm[t], lm[t])),
            seq(|close|, t requires 0 <= t < |close| => ShortFlag(sm[t], lm[t])),
            seq(|close|, t requires 0 <= t < |close| => Position(sm[t], lm[t])))
  }

  /** The short average is above the long one at row `t` (both defined). */
  predicate Above(s: Signals, t: nat)
    requires t < |s.shortMavg| && t < |s.longMavg|
  {
    s.shortMavg[t].Some? && s.longMavg[t].Some? && s.shortMavg[t].value > s.longMavg[t].value
  }

  /** The short average is below the long one at row `t` (both defined). */
  predicate Below(s: Signals, t: nat)
    requires t < |s.shortMavg| && t < |s.longMavg|
  {
    s.shortMavg[t].Some? && s.longMavg[t].Some? && s.shortMavg[t].value < s.longMavg[t].value
  }

  /** Every position is -1, 0 or 1: long exactly when the short average is
      above the long one, short exactly when below, flat exactly when they
      are equal or either is still undefined. */
  lemma PositionsThreeValued(close: seq<real>, shortWindow: nat, longWindow: nat, t: nat)
    requires shortWindow >= 1 && longWindow >= 1 && t < |close|
    ensures var s := GenerateSignals(close, shortWindow, longWindow);
            && s.positions[t] in {-1, 0, 1}
            && (s.positions[t] == 1 <==> Above(s, t))
            && (s.positions[t] == -1 <==> Below(s, t))
            && (s.positions[t] == 0 <==> !Above(s, t) && !Below(s, t))
            && s.positions[t] == s.longPositions[t] + s.shortPositions[t]
  {
  }

  /** During the warm-up of either window the strategy is flat: before row
      `longWindow - 1` (or `shortWindow - 1`) no position is taken. */
  lemma WarmUpIsFlat(close: seq<real>, shortWindow: nat, longWindow: nat, t: nat)
    requires shortWindow >= 1 && longWindow >= 1 && t < |close|
    requires t < longWindow - 1 || t < shortWindow - 1
    ensures GenerateSignals(close, shortWindow, longWindow).positions[t] == 0
    ensures GenerateSignals(close, shortWindow, longWindow).longPositions[t] == 0
    ensures GenerateSignals(close, shortWindow, longWindow).shortPositions[t] == 0
  {
  }

  /** The signal has no look-ahead: two close series that agree up to row
      `t` give the same positions up to row `t`. */
  lemma SignalsCausal(a: seq<real>, b: seq<real>, shortWindow: nat, longWindow: nat, t: nat)
    requires shortWindow >= 1 && longWindow >= 1
    requires t < |a| && t < |b| && a[..t + 1] == b[..t + 1]
    ensures forall s :: 0 <= s <= t ==>
              GenerateSignals(a, shortWindow, longWindow).positions[s]
                == GenerateSignals(b, shortWindow, longWindow).positions[s]
    ensures GenerateSignals(a, shortWindow, longWindow).positions[..t + 1]
              == GenerateSignals(b, shortWindow, longWindow).positions[..t + 1]
  {
    RollingMeanCausal(a, b, shortWindow, t);
    RollingMeanCausal(a, b, longWindow, t);
  }

  /** The rows a marker plot selects: `(flags == level) & (flags.shift(1) == 0)`.
      The shifted column is undefined at row 0, so row 0 is never marked. */
  function Markers(flags: seq<int>, level: int): (m: seq<bool>)
    ensures |m| == |flags|
    ensures |flags| > 0 ==> !m[0]
  {
    seq(|flags|, t requires 0 <= t < |flags| => t > 0 && flags[t] == level && flags[t - 1] == 0)
  }

  /** A buy marker is exactly an upward crossing: the short average is above
      the long one at row `t` and was not at row `t - 1`. */
  lemma BuyMarksUpwardCross(close: seq<real>, shortWindow: nat, longWindow: nat, t: nat)
    requires shortWindow >= 1 && longWindow >= 1 && t < |close|
    ensures var s := GenerateSignals(close, shortWindow, longWindow);
            Markers(s.longPositions, 1)[t] <==> t > 0 && Above(s, t) && !Above(s, t - 1)
  {
  }

  /** A sell marker is exactly a downward crossing: the short average is
      below the long one at row `t` and was not at row `t - 1`. */
  lemma SellMarksDownwardCross(close: seq<real>, shortWindow: nat, longWindow: nat, t: nat)
    requires shortWindow >= 1 && longWindow >= 1 && t < |close|
    ensures var s := GenerateSignals(close, shortWindow, longWindow);
            Markers(s.shortPositions, -1)[t] <==> t > 0 && Below(s, t) && !Below(s, t - 1)
  {
  }
}
