/** The evaluation of the crossover strategy: daily returns of the close,
    strategy returns that apply yesterday's position to today's return,
    their cumulative product, the running maximum of that product floored
    at 1, the drawdown against it and the largest drawdown. pandas' NaN is
    `None`; the pandas reductions used here skip it. */
module Evaluation {
  import opened Numeric
  import opened Crossover

  /** Closes are positive prices. */
  predicate PositivePrices(close: seq<real>) {
    forall t :: 0 <= t < |close| ==> close[t] > 0.0
  }

  /** The relative change from `prev` to `cur`: more than -1, and it
      carries `prev` back to `cur`. */
  function Change(cur: real, prev: real): (x: real)
    requires cur > 0.0 && prev > 0.0
    ensures x > -1.0 && prev * (1.0 + x) == cur
  {
    assert cur / prev > 0.0;
    assert prev * (cur / prev) == cur;
    cur / prev - 1.0
  }

  /** `close.pct_change()`: undefined at row 0, then the relative change
      from the previous close. Each return exceeds -1 and carries the
      previous close to the current one. */
  function PctChange(close: seq<real>): (r: seq<Option<real>>)
    requires PositivePrices(close)
    ensures |r| == |close|
    ensures forall t :: 0 <= t < |r| ==> (r[t].Some? <==> t > 0)
    ensures forall t :: 0 < t < |r| ==>
              r[t].value > -1.0 && close[t - 1] * (1.0 + r[t].value) == close[t]
  {
    seq(|close|, t requires 0 <= t < |close| =>
      if t == 0 then None else Some(Change(close[t], close[t - 1])))
  }

  /** `returns * positions.shift(1)`: the position taken at the previous
      row earns today's return, so a flat previous row earns nothing, a
      long one earns the return and a short one its negation. Row 0 has no
      previous position and is undefined. */
  function StrategyReturns(rets: seq<Option<real>>, positions: seq<int>): (sr: seq<Option<real>>)
    requires |rets| == |positions|
    ensures |sr| == |rets|
    ensures forall t :: 0 <= t < |sr| ==> (sr[t].Some? <==> t > 0 && rets[t].Some?)
    ensures forall t :: 0 < t < |sr| && rets[t].Some? ==>
              && (positions[t - 1] == 0 ==> sr[t] == Some(0.0))
              && (positions[t - 1] == 1 ==> sr[t] == rets[t])
              && (positions[t - 1] == -1 ==> sr[t] == Some(-rets[t].value))
  {
    seq(|rets|, t requires 0 <= t < |rets| =>
      if t > 0 && rets[t].Some? then Some(rets[t].value * (positions[t - 1] as real)) else None)
  }

  /** `strategy_returns + 1`, undefined where the return is. */
  function PlusOne(sr: seq<Option<real>>): (f: seq<Option<real>>)
    ensures |f| == |sr|
    ensures forall t :: 0 <= t < |sr| ==> (f[t].Some? <==> sr[t].Some?)
    ensures forall t :: 0 <= t < |sr| && sr[t].Some? ==> f[t].value - 1.0 == sr[t].value
  {
    seq(|sr|, t requires 0 <= t < |sr| => if sr[t].Some? then Some(sr[t].value + 1.0) else None)
  }

  /** An undefined factor leaves a product unchanged. */
  function Factor(x: Option<real>): real {
    if x.Some? then x.value else 1.0
  }

  /** The product of the defined entries: the reference definition of a
      cumulative product. */
  function Product(xs: seq<Option<real>>): real {
    if xs == [] then 1.0 else Factor(xs[0]) * Product(xs[1..])
  }

  /** Appending an entry multiplies the product by it. */
  lemma {:induction false} ProductSnoc(xs: seq<Option<real>>, x: Option<real>)
    ensures Product(xs + [x]) == Product(xs) * Factor(x)
  {
    if xs != [] {
      assert (xs + [x])[1..] == xs[1..] + [x];
      ProductSnoc(xs[1..], x);
    }
  }

  /** A product of positive factors is positive. */
  lemma {:induction false} ProductPositive(xs: seq<Option<real>>)
    requires forall k :: 0 <= k < |xs| && xs[k].Some? ==> xs[k].value > 0.0
    ensures Product(xs) > 0.0
  {
    if xs != [] {
      ProductPositive(xs[1..]);
      assert Factor(xs[0]) > 0.0;
    }
  }

  lemma MulAssoc(a: real, b: real, c: real)
    ensures a * (b * c) == (a * b) * c
  {
  }

  /** The scan `cumprod` performs, carrying the product `acc` of the
      entries seen so far: an undefined entry stays undefined and does not
      change the product (pandas' `skipna`). */
  function CumProdFrom(xs: seq<Option<real>>, acc: real): (c: seq<Option<real>>)
    ensures |c| == |xs|
    ensures forall t :: 0 <= t < |xs| ==> (c[t].Some? <==> xs[t].Some?)
    decreases |xs|
  {
    if xs == [] then []
    else
      var next := acc * Factor(xs[0]);
      var rest := CumProdFrom(xs[1..], next);
      assert forall t :: 0 < t < |xs| ==> xs[1..][t - 1] == xs[t];
      [if xs[0].Some? then Some(next) else None] + rest
  }

  /** The scan at row `t > 0` is the scan of the rows after the first. */
  lemma CumProdShift(xs: seq<Option<real>>, acc: real, t: nat)
    requires 0 < t < |xs|
    ensures CumProdFrom(xs, acc)[t] == CumProdFrom(xs[1..], acc * Factor(xs[0]))[t - 1]
  {
  }

  /** `acc` multiplied by the defined entries one at a time from the front:
      the value the scan carries after those entries. */
  function ProductFrom(acc: real, xs: seq<Option<real>>): real
    decreases |xs|
  {
    if xs == [] then acc else ProductFrom(acc * Factor(xs[0]), xs[1..])
  }

  /** Multiplying in a non-empty run starts with its first entry. */
  lemma ProductFromCons(acc: real, xs: seq<Option<real>>)
    requires xs != []
    ensures ProductFrom(acc, xs) == ProductFrom(acc * Factor(xs[0]), xs[1..])
  {
  }

  /** Multiplying in from `acc` is `acc` times the reference product. */
  lemma {:induction false} ProductFromIsProduct(acc: real, xs: seq<Option<real>>)
    ensures ProductFrom(acc, xs) == acc * Product(xs)
    decreases |xs|
  {
    if xs != [] {
      ProductFromIsProduct(acc * Factor(xs[0]), xs[1..]);
      MulAssoc(acc, Factor(xs[0]), Product(xs[1..]));
    }
  }

  /** Each defined row of the scan holds the value carried after that row. */
  lemma {:induction false} CumProdFromIsFold(xs: seq<Option<real>>, acc: real, t: nat)
    requires t < |xs| && xs[t].Some?
    ensures CumProdFrom(xs, acc)[t].value == ProductFrom(acc, xs[..t + 1])
    decreases t
  {
    var p := xs[..t + 1];
    if t == 0 {
      assert p[1..] == [];
      assert p[0] == xs[0];
    } else {
      var ys, next := xs[1..], acc * Factor(xs[0]);
      var v := CumProdFrom(ys, next)[t - 1].value;
      assert v == ProductFrom(next, ys[..t]) by {
        assert ys[t - 1] == xs[t];
        CumProdFromIsFold(ys, next, t - 1);
      }
      assert CumProdFrom(xs, acc)[t].value == v by {
        CumProdShift(xs, acc, t);
      }
      assert ProductFrom(acc, p) == ProductFrom(next, ys[..t]) by {
        assert acc * Factor(p[0]) == next;
        assert p[1..] == ys[..t];
        ProductFromCons(acc, p);
      }
    }
  }

  /** The scan agrees with the reference definition: each defined row holds
      `acc` times the product of the defined entries up to it. */
  lemma CumProdFromIsProduct(xs: seq<Option<real>>, acc: real, t: nat)
    requires t < |xs| && xs[t].Some?
    ensures CumProdFrom(xs, acc)[t].value == acc * Product(xs[..t + 1])
  {
    CumProdFromIsFold(xs, acc, t);
    ProductFromIsProduct(acc, xs[..t + 1]);
  }

  /** `(strategy_returns + 1).cumprod()`. */
  function CumulativeReturns(sr: seq<Option<real>>): (c: seq<Option<real>>)
    ensures |c| == |sr|
    ensures forall t :: 0 <= t < |sr| ==> (c[t].Some? <==> sr[t].Some?)
  {
    CumProdFrom(PlusOne(sr), 1.0)
  }

  /** Each cumulative return is the product of `1 + r` over every defined
      strategy return so far, and undefined where the strategy return is. */
  lemma CumulativeIsProduct(sr: seq<Option<real>>, t: nat)
    requires t < |sr|
    ensures CumulativeReturns(sr)[t].Some? <==> sr[t].Some?
    ensures sr[t].Some? ==> CumulativeReturns(sr)[t].value == Product(PlusOne(sr)[..t + 1])
  {
    var f := PlusOne(sr);
    assert CumulativeReturns(sr) == CumProdFrom(f, 1.0);
    if sr[t].Some? {
      CumProdFromIsProduct(f, 1.0, t);
      assert 1.0 * Product(f[..t + 1]) == Product(f[..t + 1]);
    }
  }

  /** Consecutive defined rows compound: the cumulative return at `t` is the
      one at `t - 1` times `1 + r[t]`. */
  lemma CumulativeCompounds(sr: seq<Option<real>>, t: nat)
    requires 0 < t < |sr| && sr[t].Some? && sr[t - 1].Some?
    ensures CumulativeReturns(sr)[t].Some? && CumulativeReturns(sr)[t - 1].Some?
    ensures CumulativeReturns(sr)[t].value == CumulativeReturns(sr)[t - 1].value * (1.0 + sr[t].value)
  {
    var f := PlusOne(sr);
    CumulativeIsProduct(sr, t);
    CumulativeIsProduct(sr, t - 1);
    ProductPrefixStep(f, t);
    assert Factor(f[t]) == 1.0 + sr[t].value;
  }

  /** The product over the first t + 1 entries is the product over the
      first t times entry t. */
  lemma ProductPrefixStep(f: seq<Option<real>>, t: nat)
    requires t < |f|
    ensures Product(f[..t + 1]) == Product(f[..t]) * Factor(f[t])
  {
    assert f[..t + 1] == f[..t] + [f[t]];
    ProductSnoc(f[..t], f[t]);
  }

  /** The largest value seen after one more row: an undefined row leaves
      it unchanged. */
  function NextBest(x: Option<real>, best: Option<real>): Option<real> {
    if x.None? then best else if best.Some? && best.value >= x.value then best else x
  }

  /** `np.maximum.accumulate` over the defined rows, carrying the largest
      value `best` seen so far; an undefined row stays undefined. */
  function PrefixMax(cum: seq<Option<real>>, best: Option<real>): (m: seq<Option<real>>)
    ensures |m| == |cum|
    ensures forall t :: 0 <= t < |cum| ==> (m[t].Some? <==> cum[t].Some?)
    decreases |cum|
  {
    if cum == [] then []
    else
      var next := NextBest(cum[0], best);
      [if cum[0].None? then None else next] + PrefixMax(cum[1..], next)
  }

  /** The running maximum at row `t > 0` is the running maximum of the rows
      after the first. */
  lemma PrefixMaxShift(cum: seq<Option<real>>, best: Option<real>, t: nat)
    requires 0 < t < |cum|
    ensures PrefixMax(cum, best)[t] == PrefixMax(cum[1..], NextBest(cum[0], best))[t - 1]
  {
  }

  /** Each defined row of the running maximum is at least every defined
      value up to it, and at least `best`. */
  lemma {:induction false} PrefixMaxIsUpperBound(cum: seq<Option<real>>, best: Option<real>)
    ensures var m := PrefixMax(cum, best);
            && (forall s, t :: 0 <= s <= t < |cum| && cum[s].Some? && cum[t].Some? ==> m[t].value >= cum[s].value)
            && (best.Some? ==> forall t :: 0 <= t < |cum| && cum[t].Some? ==> m[t].value >= best.value)
    decreases |cum|
  {
    if cum != [] {
      var next := NextBest(cum[0], best);
      var tail := cum[1..];
      PrefixMaxIsUpperBound(tail, next);
      var m, rest := PrefixMax(cum, best), PrefixMax(tail, next);
      forall s, t | 0 <= s <= t < |cum| && cum[s].Some? && cum[t].Some?
        ensures m[t].value >= cum[s].value
      {
        if t == 0 {
          assert m[0] == next;
        } else {
          PrefixMaxShift(cum, best, t);
          assert cum[t] == tail[t - 1];
          if s > 0 {
            assert cum[s] == tail[s - 1];
          }
        }
      }
      if best.Some? {
        forall t | 0 <= t < |cum| && cum[t].Some?
          ensures m[t].value >= best.value
        {
          if t == 0 {
            assert m[0] == next;
          } else {
            PrefixMaxShift(cum, best, t);
            assert cum[t] == tail[t - 1];
          }
        }
      }
    }
  }

  /** Each defined row of the running maximum is attained: it is `best` or
      a defined value at that row or before. */
  lemma {:induction false} PrefixMaxIsAttained(cum: seq<Option<real>>, best: Option<real>, t: nat)
    requires t < |cum| && cum[t].Some?
    ensures var m := PrefixMax(cum, best);
            (best.Some? && m[t] == best) || exists s :: 0 <= s <= t && cum[s] == m[t]
    decreases t
  {
    var m := PrefixMax(cum, best);
    var next := NextBest(cum[0], best);
    if t > 0 {
      PrefixMaxIsAttained(cum[1..], next, t - 1);
      var rest := PrefixMax(cum[1..], next);
      assert m[t] == rest[t - 1] && cum[t] == cum[1..][t - 1];
      if !(next.Some? && rest[t - 1] == next) {
        var s :| 0 <= s <= t - 1 && cum[1..][s] == rest[t - 1];
        assert cum[s + 1] == m[t];
      } else if next != best {
        assert cum[0] == m[t];
      }
    }
  }

  /** `running_max[running_max < 1] = 1`: every defined entry is raised
      to at least 1. */
  function FloorAtOne(m: seq<Option<real>>): (f: seq<Option<real>>)
    ensures |f| == |m|
    ensures forall t :: 0 <= t < |m| ==> (f[t].Some? <==> m[t].Some?)
    ensures forall t :: 0 <= t < |m| && m[t].Some? ==>
              f[t].value >= 1.0 && f[t].value >= m[t].value
              && (f[t].value == m[t].value || f[t].value == 1.0)
  {
    seq(|m|, t requires 0 <= t < |m| =>
      if m[t].None? then None else if m[t].value < 1.0 then Some(1.0) else m[t])
  }

  /** The running maximum of the cumulative returns, floored at 1. */
  function RunningMax(cum: seq<Option<real>>): (rm: seq<Option<real>>)
    ensures |rm| == |cum|
    ensures forall t :: 0 <= t < |cum| ==> (rm[t].Some? <==> cum[t].Some?)
    ensures forall t :: 0 <= t < |cum| && cum[t].Some? ==> rm[t].value >= 1.0 && rm[t].value >= cum[t].value
  {
    var m := PrefixMax(cum, None);
    var f := FloorAtOne(m);
    forall t | 0 <= t < |cum| && cum[t].Some?
      ensures f[t].value >= cum[t].value
    {
      PrefixMaxCoversRow(cum, t);
      assert f[t].value >= m[t].value;
    }
    f
  }

  /** Each defined row's running maximum is at least that row's value. */
  lemma PrefixMaxCoversRow(cum: seq<Option<real>>, t: nat)
    requires t < |cum| && cum[t].Some?
    ensures PrefixMax(cum, None)[t].value >= cum[t].value
  {
    PrefixMaxIsUpperBound(cum, None);
  }

  /** The running maximum never decreases across defined rows. */
  lemma RunningMaxMonotone(cum: seq<Option<real>>, s: nat, t: nat)
    requires s <= t < |cum| && cum[s].Some? && cum[t].Some?
    ensures RunningMax(cum)[s].value <= RunningMax(cum)[t].value
  {
    var m := PrefixMax(cum, None);
    PrefixMaxMonotone(cum, s, t);
    assert RunningMax(cum) == FloorAtOne(m);
  }

  /** Before flooring, the running maximum never decreases across defined
      rows. */
  lemma PrefixMaxMonotone(cum: seq<Option<real>>, s: nat, t: nat)
    requires s <= t < |cum| && cum[s].Some? && cum[t].Some?
    ensures PrefixMax(cum, None)[s].Some? && PrefixMax(cum, None)[t].Some?
    ensures PrefixMax(cum, None)[s].value <= PrefixMax(cum, None)[t].value
  {
    var m := PrefixMax(cum, None);
    PrefixMaxIsAttained(cum, None, s);
    PrefixMaxIsUpperBound(cum, None);
    var k :| 0 <= k <= s && cum[k] == m[s];
    assert m[t].value >= cum[k].value;
  }

  /** `cumulative_returns / running_max - 1`, aligned on the index: defined
      exactly where the cumulative return is. */
  function Drawdown(cum: seq<Option<real>>): (dd: seq<Option<real>>)
    ensures |dd| == |cum|
    ensures forall t :: 0 <= t < |cum| ==> (dd[t].Some? <==> cum[t].Some?)
    ensures forall t :: 0 <= t < |cum| && cum[t].Some? ==> dd[t].value <= 0.0
  {
    var rm := RunningMax(cum);
    var dd := seq(|cum|, t requires 0 <= t < |cum| =>
      if cum[t].Some? then Some(cum[t].value / rm[t].value - 1.0) else None);
    forall t | 0 <= t < |cum| && cum[t].Some?
      ensures dd[t].value <= 0.0
    {
      DivMonotone(cum[t].value, rm[t].value, rm[t].value);
      DivSelf(rm[t].value);
    }
    dd
  }

  /** `Series.min()`: the smallest defined entry, undefined when there is
      none. */
  function MinDefined(xs: seq<Option<real>>): (r: Option<real>)
    ensures r.Some? <==> exists k :: 0 <= k < |xs| && xs[k].Some?
    ensures r.Some? ==> forall k :: 0 <= k < |xs| && xs[k].Some? ==> r.value <= xs[k].value
    ensures r.Some? ==> exists k :: 0 <= k < |xs| && xs[k] == r
    decreases |xs|
  {
    if xs == [] then None
    else
      var rest := MinDefined(xs[1..]);
      assert forall k :: 0 < k < |xs| ==> xs[1..][k - 1] == xs[k];
      if rest.Some? then
        var k :| 0 <= k < |xs[1..]| && xs[1..][k] == rest;
        assert xs[k + 1] == rest;
        if xs[0].Some? && xs[0].value < rest.value then xs[0] else rest
      else xs[0]
  }

  /** `drawdown.min() * 100`: the largest drawdown, in percent. */
  function MaxDrawdown(dd: seq<Option<real>>): (r: Option<real>)
    ensures r.Some? <==> exists k :: 0 <= k < |dd| && dd[k].Some?
    ensures r.Some? ==> exists k :: 0 <= k < |dd| && dd[k].Some? && r.value == dd[k].value * 100.0
    ensures r.Some? ==> forall k :: 0 <= k < |dd| && dd[k].Some? ==> r.value <= dd[k].value * 100.0
  {
    var lowest := MinDefined(dd);
    if lowest.Some? then Some(lowest.value * 100.0) else None
  }

  /** Every column the evaluation adds to the data frame. */
  datatype Report = Report(
    signals: Signals, dailyReturns: seq<Option<real>>, strategyReturns: seq<Option<real>>,
    cumulative: seq<Option<real>>, runningMax: seq<Option<real>>,
    drawdown: seq<Option<real>>, maxDrawdown: Option<real>)

  /** The whole walkthrough from closes to the largest drawdown. */
  function Backtest(close: seq<real>, shortWindow: nat, longWindow: nat): (r: Report)
    requires shortWindow >= 1 && longWindow >= 1 && PositivePrices(close)
    ensures |r.dailyReturns| == |r.strategyReturns| == |r.cumulative| == |r.runningMax| == |r.drawdown| == |close|
  {
    var signals := GenerateSignals(close, shortWindow, longWindow);
    var rets := PctChange(close);
    var sr := StrategyReturns(rets, signals.positions);
    var cum := CumulativeReturns(sr);
    Report(signals, rets, sr, cum, RunningMax(cum), Drawdown(cum), MaxDrawdown(Drawdown(cum)))
  }

  /** Every strategy return and cumulative return is defined from row 1
      on, and row 0 is undefined throughout. */
  lemma DefinedFromRowOne(close: seq<real>, shortWindow: nat, longWindow: nat, t: nat)
    requires shortWindow >= 1 && longWindow >= 1 && PositivePrices(close) && t < |close|
    ensures var r := Backtest(close, shortWindow, longWindow);
            && (r.strategyReturns[t].Some? <==> t > 0)
            && (r.cumulative[t].Some? <==> t > 0)
            && (r.drawdown[t].Some? <==> t > 0)
  {
  }

  /** The drawdown is never positive, and neither is the largest drawdown;
      on a series of at least two rows the largest drawdown is defined. */
  lemma DrawdownNonPositive(close: seq<real>, shortWindow: nat, longWindow: nat)
    requires shortWindow >= 1 && longWindow >= 1 && PositivePrices(close)
    ensures var r := Backtest(close, shortWindow, longWindow);
            && (forall t :: 0 <= t < |close| && r.drawdown[t].Some? ==> r.drawdown[t].value <= 0.0)
            && (r.maxDrawdown.Some? ==> r.maxDrawdown.value <= 0.0)
            && (|close| >= 2 ==> r.maxDrawdown.Some?)
  {
    var r := Backtest(close, shortWindow, longWindow);
    if |close| >= 2 {
      DefinedFromRowOne(close, shortWindow, longWindow, 1);
      assert r.drawdown[1].Some?;
    }
  }

  /** A strategy that is only ever flat or long, on returns above -1,
      has positive growth factors `1 + r`. */
  lemma LongOnlyFactorsPositive(rets: seq<Option<real>>, positions: seq<int>)
    requires |rets| == |positions|
    requires forall k :: 0 <= k < |rets| && rets[k].Some? ==> rets[k].value > -1.0
    requires forall k :: 0 <= k < |positions| ==> positions[k] == 0 || positions[k] == 1
    ensures var f := PlusOne(StrategyReturns(rets, positions));
            forall k :: 0 <= k < |f| && f[k].Some? ==> f[k].value > 0.0
  {
  }

  /** Positive growth factors keep every cumulative return positive, so no
      drawdown reaches -1. */
  lemma PositiveFactorsStayAboveTotalLoss(sr: seq<Option<real>>, t: nat)
    requires t < |sr|
    requires var f := PlusOne(sr); forall k :: 0 <= k < |f| && f[k].Some? ==> f[k].value > 0.0
    ensures var cum := CumulativeReturns(sr);
            cum[t].Some? ==> cum[t].value > 0.0 && Drawdown(cum)[t].value > -1.0
  {
    var cum := CumulativeReturns(sr);
    if cum[t].Some? {
      var f := PlusOne(sr);
      var prefix := f[..t + 1];
      assert forall k :: 0 <= k < |prefix| ==> prefix[k] == f[k];
      CumulativeIsProduct(sr, t);
      ProductPositive(prefix);
      PositiveAboveTotalLoss(cum, t);
    }
  }

  /** A positive cumulative return is less than a total loss below its
      running maximum. */
  lemma PositiveAboveTotalLoss(cum: seq<Option<real>>, t: nat)
    requires t < |cum| && cum[t].Some? && cum[t].value > 0.0
    ensures Drawdown(cum)[t].value > -1.0
  {
  }

  /** Without short positions the strategy never loses more than it has:
      every cumulative return stays positive and every drawdown stays above
      -1 (a total loss). */
  lemma LongOnlyStaysAboveTotalLoss(close: seq<real>, shortWindow: nat, longWindow: nat, t: nat)
    requires shortWindow >= 1 && longWindow >= 1 && PositivePrices(close)
    requires forall t :: 0 <= t < |close| ==> GenerateSignals(close, shortWindow, longWindow).positions[t] != -1
    requires t < |close|
    ensures var r := Backtest(close, shortWindow, longWindow);
            r.cumulative[t].Some? ==> r.cumulative[t].value > 0.0 && r.drawdown[t].value > -1.0
  {
    var positions := GenerateSignals(close, shortWindow, longWindow).positions;
    forall k | 0 <= k < |positions|
      ensures positions[k] == 0 || positions[k] == 1
    {
      PositionsThreeValued(close, shortWindow, longWindow, k);
    }
    LongOnlyFactorsPositive(PctChange(close), positions);
    PositiveFactorsStayAboveTotalLoss(StrategyReturns(PctChange(close), positions), t);
  }

  /** With short positions the drawdown can fall below -1: closes 2, 1, 3
      with windows 1 and 2 are short on row 1, the close then triples, the
      cumulative return turns negative and the drawdown on row 2 is -2. */
  lemma ShortCanBreachTotalLoss()
    ensures var r := Backtest([2.0, 1.0, 3.0], 1, 2);
            r.drawdown[2].Some? && r.drawdown[2].value == -2.0
  {
    var close := [2.0, 1.0, 3.0];
    var positions := GenerateSignals(close, 1, 2).positions;
    SellingAtRowOne(close);
    var rets := PctChange(close);
    assert rets[2].value == 2.0 by {
      assert rets[2].value == close[2] / close[1] - 1.0;
    }
    var sr := StrategyReturns(rets, positions);
    assert sr[1].value == 0.0 && sr[2].value == -2.0;
    DrawdownAfterLosingShort(sr);
  }

  /** Strategy returns undefined, 0 and -2 compound to 1 and then -1 against
      a running maximum of 1: a drawdown of -2. */
  lemma DrawdownAfterLosingShort(sr: seq<Option<real>>)
    requires |sr| == 3 && sr[0].None? && sr[1].Some? && sr[2].Some?
    requires sr[1].value == 0.0 && sr[2].value == -2.0
    ensures Drawdown(CumulativeReturns(sr))[2].Some?
    ensures Drawdown(CumulativeReturns(sr))[2].value == -2.0
  {
    var cum := CumulativeReturns(sr);
    var f := PlusOne(sr);
    CumulativeIsProduct(sr, 1);
    var p := f[..2];
    assert p[0].None? && p[1].value == 1.0 && p[1..][1..] == [];
    assert Product(p[1..]) == 1.0;
    assert Product(p) == 1.0;
    CumulativeCompounds(sr, 2);
    assert cum[2].value == -1.0;
    var m := PrefixMax(cum, None);
    PrefixMaxIsAttained(cum, None, 2);
    assert m[2].value == 1.0 || m[2].value == -1.0;
    var rm := RunningMax(cum);
    assert rm[2].value == 1.0;
  }

  /** On closes 2, 1, 3 with windows 1 and 2 the strategy is flat on row 0
      and short on row 1. */
  lemma SellingAtRowOne(close: seq<real>)
    requires close == [2.0, 1.0, 3.0]
    ensures GenerateSignals(close, 1, 2).positions[0] == 0
    ensures GenerateSignals(close, 1, 2).positions[1] == -1
  {
    var s := GenerateSignals(close, 1, 2);
    assert close[1..2] == [1.0] && close[0..2] == [2.0, 1.0];
    assert Sum([1.0]) == 1.0 && Sum([2.0, 1.0]) == 3.0;
    assert s.shortMavg[1].value == 1.0 && s.longMavg[1].value == 1.5;
  }

  /** The running maximum is determined by the rows up to its own. */
  lemma {:induction false} PrefixMaxCausal(a: seq<Option<real>>, b: seq<Option<real>>, best: Option<real>, t: nat)
    requires t < |a| && t < |b| && a[..t + 1] == b[..t + 1]
    ensures forall s :: 0 <= s <= t ==> PrefixMax(a, best)[s] == PrefixMax(b, best)[s]
    decreases t
  {
    assert a[0] == a[..t + 1][0] && b[0] == b[..t + 1][0];
    if t > 0 {
      assert a[1..][..t] == a[..t + 1][1..] && b[1..][..t] == b[..t + 1][1..];
      var next := NextBest(a[0], best);
      PrefixMaxCausal(a[1..], b[1..], next, t - 1);
    }
  }

  /** Daily returns look only backwards. */
  lemma PctChangeCausal(a: seq<real>, b: seq<real>, t: nat)
    requires PositivePrices(a) && PositivePrices(b)
    requires t < |a| && t < |b| && a[..t + 1] == b[..t + 1]
    ensures PctChange(a)[..t + 1] == PctChange(b)[..t + 1]
  {
    forall s | 0 <= s <= t
      ensures PctChange(a)[s] == PctChange(b)[s]
    {
      assert a[s] == a[..t + 1][s] && b[s] == b[..t + 1][s];
      if s > 0 {
        assert a[s - 1] == a[..t + 1][s - 1] && b[s - 1] == b[..t + 1][s - 1];
      }
    }
  }

  /** A strategy return depends on the return of its own row and the
      position of the previous row only. */
  lemma StrategyReturnsCausal(ra: seq<Option<real>>, pa: seq<int>, rb: seq<Option<real>>, pb: seq<int>, t: nat)
    requires |ra| == |pa| && |rb| == |pb| && t < |ra| && t < |rb|
    requires ra[..t + 1] == rb[..t + 1] && pa[..t + 1] == pb[..t + 1]
    ensures StrategyReturns(ra, pa)[..t + 1] == StrategyReturns(rb, pb)[..t + 1]
  {
    forall s | 0 <= s <= t
      ensures StrategyReturns(ra, pa)[s] == StrategyReturns(rb, pb)[s]
    {
      var x, y := StrategyReturns(ra, pa)[s], StrategyReturns(rb, pb)[s];
      assert ra[s] == ra[..t + 1][s] && rb[s] == rb[..t + 1][s];
      if s > 0 && ra[s].Some? {
        assert pa[s - 1] == pa[..t + 1][s - 1] && pb[s - 1] == pb[..t + 1][s - 1];
        assert x.value == y.value;
      }
    }
  }

  /** `1 + r` looks only at its own row. */
  lemma PlusOneCausal(x: seq<Option<real>>, y: seq<Option<real>>, t: nat)
    requires t < |x| && t < |y| && x[..t + 1] == y[..t + 1]
    ensures PlusOne(x)[..t + 1] == PlusOne(y)[..t + 1]
  {
  }

  /** Cumulative returns look only backwards. */
  lemma CumulativeCausal(x: seq<Option<real>>, y: seq<Option<real>>, t: nat)
    requires t < |x| && t < |y| && x[..t + 1] == y[..t + 1]
    ensures CumulativeReturns(x)[..t + 1] == CumulativeReturns(y)[..t + 1]
  {
    var fx, fy := PlusOne(x), PlusOne(y);
    PlusOneCausal(x, y, t);
    forall s | 0 <= s <= t
      ensures CumulativeReturns(x)[s] == CumulativeReturns(y)[s]
    {
      assert fx[s] == fx[..t + 1][s] && fy[s] == fy[..t + 1][s];
      if fx[s].Some? {
        assert fx[..s + 1] == fx[..t + 1][..s + 1] && fy[..s + 1] == fy[..t + 1][..s + 1];
        CumProdFromIsFold(fx, 1.0, s);
        CumProdFromIsFold(fy, 1.0, s);
      }
    }
  }

  /** Drawdowns look only backwards. */
  lemma DrawdownCausal(x: seq<Option<real>>, y: seq<Option<real>>, t: nat)
    requires t < |x| && t < |y| && x[..t + 1] == y[..t + 1]
    ensures Drawdown(x)[..t + 1] == Drawdown(y)[..t + 1]
  {
    RunningMaxCausal(x, y, t);
    forall s | 0 <= s <= t
      ensures Drawdown(x)[s] == Drawdown(y)[s]
    {
      assert x[s] == x[..t + 1][s] && y[s] == y[..t + 1][s];
      assert Drawdown(x)[s] == if x[s].Some? then Some(x[s].value / RunningMax(x)[s].value - 1.0) else None;
      assert Drawdown(y)[s] == if y[s].Some? then Some(y[s].value / RunningMax(y)[s].value - 1.0) else None;
    }
  }

  /** The floored running maximum looks only backwards. */
  lemma RunningMaxCausal(x: seq<Option<real>>, y: seq<Option<real>>, t: nat)
    requires t < |x| && t < |y| && x[..t + 1] == y[..t + 1]
    ensures forall s :: 0 <= s <= t ==> RunningMax(x)[s] == RunningMax(y)[s]
  {
    PrefixMaxCausal(x, y, None, t);
    assert RunningMax(x) == FloorAtOne(PrefixMax(x, None));
    assert RunningMax(y) == FloorAtOne(PrefixMax(y, None));
  }

  /** No look-ahead: two close series that agree up to row `t` produce the
      same positions, strategy returns, cumulative returns and drawdowns up
      to row `t`; what happens later cannot change them. */
  lemma NoLookAhead(a: seq<real>, b: seq<real>, shortWindow: nat, longWindow: nat, t: nat)
    requires shortWindow >= 1 && longWindow >= 1 && PositivePrices(a) && PositivePrices(b)
    requires t < |a| && t < |b| && a[..t + 1] == b[..t + 1]
    ensures var ra, rb := Backtest(a, shortWindow, longWindow), Backtest(b, shortWindow, longWindow);
            && ra.signals.positions[..t + 1] == rb.signals.positions[..t + 1]
            && ra.strategyReturns[..t + 1] == rb.strategyReturns[..t + 1]
            && ra.cumulative[..t + 1] == rb.cumulative[..t + 1]
            && ra.drawdown[..t + 1] == rb.drawdown[..t + 1]
  {
    var ra, rb := Backtest(a, shortWindow, longWindow), Backtest(b, shortWindow, longWindow);
    SignalsCausal(a, b, shortWindow, longWindow, t);
    PctChangeCausal(a, b, t);
    StrategyReturnsCausal(ra.dailyReturns, ra.signals.positions, rb.dailyReturns, rb.signals.positions, t);
    CumulativeCausal(ra.strategyReturns, rb.strategyReturns, t);
    DrawdownCausal(ra.cumulative, rb.cumulative, t);
  }
}
