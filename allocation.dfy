/** The allocation matrices of the random-search strategy run through the
    order-based simulator. The price panel is tiled once per candidate, so
    column `g * n + k` is asset `k` of candidate `g`; a size matrix holds a
    target percentage per row and column, NaN meaning "no order". The
    one-time allocation fills row 0 only; the monthly rebalancing fills the
    first row of every calendar month. */
module Allocation {
  import opened Numeric

  /** `np.concatenate(weights)`: the candidates' weight vectors end to end. */
  function Concat(ws: seq<seq<Float>>): (r: seq<Float>)
    ensures forall i, k :: 0 <= i < |ws| && 0 <= k < |ws[i]| ==> ws[i][k] in r
    ensures forall x :: x in r ==> exists i :: 0 <= i < |ws| && x in ws[i]
  {
    if ws == [] then []
    else
      assert forall i :: 0 < i < |ws| ==> ws[1..][i - 1] == ws[i];
      ws[0] + Concat(ws[1..])
  }

  /** With `n` weights per candidate, the concatenation has `n` columns per
      candidate and column `g * n + k` is weight `k` of candidate `g`, the
      column the tiled price panel gives to that candidate's asset `k`. */
  lemma {:induction false} ConcatLayout(ws: seq<seq<Float>>, n: nat, g: nat, k: nat)
    requires forall i :: 0 <= i < |ws| ==> |ws[i]| == n
    requires g < |ws| && k < n
    ensures |Concat(ws)| == |ws| * n
    ensures g * n + k < |Concat(ws)| && Concat(ws)[g * n + k] == ws[g][k]
    decreases g
  {
    ConcatLength(ws, n);
    assert Concat(ws) == ws[0] + Concat(ws[1..]);
    assert |ws| * n == n + (|ws| - 1) * n;
    if g > 0 {
      assert forall i :: 0 <= i < |ws[1..]| ==> |ws[1..][i]| == n;
      ConcatLayout(ws[1..], n, g - 1, k);
      assert g * n + k == n + ((g - 1) * n + k);
      assert ws[1..][g - 1] == ws[g];
    }
  }

  lemma {:induction false} ConcatLength(ws: seq<seq<Float>>, n: nat)
    requires forall i :: 0 <= i < |ws| ==> |ws[i]| == n
    ensures |Concat(ws)| == |ws| * n
  {
    if ws != [] {
      ConcatLength(ws[1..], n);
      assert |ws| * n == n + (|ws| - 1) * n;
    }
  }

  /** `np.full_like(_price, np.nan)`. */
  method FullNaN(rows: nat, cols: nat) returns (a: array2<Float>)
    ensures fresh(a) && a.Length0 == rows && a.Length1 == cols
    ensures forall i, j :: 0 <= i < rows && 0 <= j < cols ==> a[i, j] == NaN
  {
    a := new Float[rows, cols]((i, j) => NaN);
  }

  /** `a[row, :] = flat`. */
  method AssignRow(a: array2<Float>, row: nat, flat: seq<Float>)
    requires row < a.Length0 && |flat| == a.Length1
    modifies a
    ensures forall i, j :: 0 <= i < a.Length0 && 0 <= j < a.Length1 ==>
              a[i, j] == if i == row then flat[j] else old(a[i, j])
  {
    for j := 0 to a.Length1
      invariant forall i, h :: 0 <= i < a.Length0 && 0 <= h < a.Length1 ==>
                  a[i, h] == if i == row && h < j then flat[h] else old(a[i, h])
    {
      a[row, j] := flat[j];
    }
  }

  /** `a[mask, :] = flat`: every row the mask selects receives `flat`. */
  method AssignMaskedRows(a: array2<Float>, mask: seq<bool>, flat: seq<Float>)
    requires |mask| == a.Length0 && |flat| == a.Length1
    modifies a
    ensures forall i, j :: 0 <= i < a.Length0 && 0 <= j < a.Length1 ==>
              a[i, j] == if mask[i] then flat[j] else old(a[i, j])
  {
    for i := 0 to a.Length0
      invariant forall r, j :: 0 <= r < a.Length0 && 0 <= j < a.Length1 ==>
                  a[r, j] == if r < i && mask[r] then flat[j] else old(a[r, j])
    {
      if mask[i] {
        AssignRow(a, i, flat);
      }
    }
  }

  /** The one-time allocation `size`: the concatenated weights in row 0 and
      NaN (no order) in every later row. */
  method OneTimeSize(rows: nat, weights: seq<seq<Float>>) returns (size: array2<Float>)
    requires rows >= 1
    ensures fresh(size) && size.Length0 == rows && size.Length1 == |Concat(weights)|
    ensures forall j :: 0 <= j < size.Length1 ==> size[0, j] == Concat(weights)[j]
    ensures forall i, j :: 1 <= i < rows && 0 <= j < size.Length1 ==> size[i, j] == NaN
  {
    var flat := Concat(weights);
    size := FullNaN(rows, |flat|);
    AssignRow(size, 0, flat);
  }

  /** A trading day. */
  datatype Date = Date(year: int, month: int, day: int)

  /** A calendar month, what `to_period('m')` keeps of a date. */
  datatype Period = Period(year: int, month: int)

  function ToPeriod(d: Date): (p: Period)
    ensures p.year == d.year && p.month == d.month
  {
    Period(d.year, d.month)
  }

  predicate DateLe(a: Date, b: Date) {
    a.year < b.year || (a.year == b.year && (a.month < b.month || (a.month == b.month && a.day <= b.day)))
  }

  /** A time index in increasing order. */
  ghost predicate Chronological(dates: seq<Date>) {
    forall j, k :: 0 <= j < k < |dates| ==> DateLe(dates[j], dates[k])
  }

  function Periods(dates: seq<Date>): (p: seq<Period>)
    ensures |p| == |dates| && forall i :: 0 <= i < |dates| ==> p[i] == ToPeriod(dates[i])
  {
    seq(|dates|, i requires 0 <= i < |dates| => ToPeriod(dates[i]))
  }

  /** `~keys.duplicated()`, scanning left to right with the keys already
      seen: a row is kept when its key has not been seen before. */
  function FirstOccurrence(keys: seq<Period>, seen: set<Period>): (m: seq<bool>)
    ensures |m| == |keys|
    ensures forall i :: 0 <= i < |keys| && m[i] ==> keys[i] !in seen
  {
    if keys == [] then [] else [keys[0] !in seen] + FirstOccurrence(keys[1..], seen + {keys[0]})
  }

  /** The scan keeps row `i` exactly when its key is neither in `seen` nor
      at any earlier row. */
  lemma {:induction false} FirstOccurrenceMeans(keys: seq<Period>, seen: set<Period>, i: nat)
    requires i < |keys|
    ensures FirstOccurrence(keys, seen)[i] <==>
              keys[i] !in seen && forall j :: 0 <= j < i ==> keys[j] != keys[i]
  {
    if i > 0 {
      FirstOccurrenceMeans(keys[1..], seen + {keys[0]}, i - 1);
      assert forall j :: 0 <= j < i - 1 ==> keys[1..][j] == keys[j + 1];
    }
  }

  /** `rb_mask = ~_price.index.to_period('m').duplicated()`. */
  function RebalanceMask(dates: seq<Date>): (mask: seq<bool>)
    ensures |mask| == |dates|
    ensures |dates| > 0 ==> mask[0]
    ensures forall i :: 0 <= i < |dates| ==>
              (mask[i] <==> forall j :: 0 <= j < i ==> ToPeriod(dates[j]) != ToPeriod(dates[i]))
  {
    MaskMeans(dates);
    FirstOccurrence(Periods(dates), {})
  }

  lemma MaskMeans(dates: seq<Date>)
    ensures forall i :: 0 <= i < |dates| ==>
              (FirstOccurrence(Periods(dates), {})[i] <==>
                 forall j :: 0 <= j < i ==> ToPeriod(dates[j]) != ToPeriod(dates[i]))
  {
    forall i | 0 <= i < |dates| {
      FirstOccurrenceMeans(Periods(dates), {}, i);
    }
  }

  /** The number of rows a mask selects. */
  function Count(mask: seq<bool>): (c: nat)
    ensures c <= |mask|
    ensures c == 0 <==> forall i :: 0 <= i < |mask| ==> !mask[i]
    ensures c == |mask| <==> forall i :: 0 <= i < |mask| ==> mask[i]
  {
    if mask == [] then 0
    else
      assert forall i :: 0 < i < |mask| ==> mask[1..][i - 1] == mask[i];
      (if mask[0] then 1 else 0) + Count(mask[1..])
  }

  lemma {:induction false} CountFirstOccurrence(keys: seq<Period>, seen: set<Period>)
    ensures Count(FirstOccurrence(keys, seen)) == |(set k | k in keys) - seen|
  {
    if keys != [] {
      var rest := keys[1..];
      CountFirstOccurrence(rest, seen + {keys[0]});
      assert FirstOccurrence(keys, seen)[1..] == FirstOccurrence(rest, seen + {keys[0]});
      NewKeys(keys, seen);
    }
  }

  /** The keys not yet seen are the first key, when unseen, and the unseen
      keys of the rest once the first is seen. */
  lemma NewKeys(keys: seq<Period>, seen: set<Period>)
    requires keys != []
    ensures var unseen, later := (set k | k in keys) - seen, (set k | k in keys[1..]) - (seen + {keys[0]});
            |unseen| == (if keys[0] in seen then 0 else 1) + |later|
  {
    var all, tail := set k | k in keys, set k | k in keys[1..];
    assert all == tail + {keys[0]};
    var later := tail - (seen + {keys[0]});
    if keys[0] in seen {
      assert all - seen == later;
    } else {
      assert all - seen == later + {keys[0]};
    }
  }

  /** The mask selects as many rows as the index has distinct months. */
  lemma MaskCountsMonths(dates: seq<Date>)
    ensures Count(RebalanceMask(dates)) == |set i | 0 <= i < |dates| :: ToPeriod(dates[i])|
  {
    var keys := Periods(dates);
    CountFirstOccurrence(keys, {});
    assert (set k | k in keys) - {} == set i | 0 <= i < |dates| :: ToPeriod(dates[i]) by {
      forall p | p in keys
        ensures p in set i | 0 <= i < |dates| :: ToPeriod(dates[i])
      {
        var i :| 0 <= i < |keys| && keys[i] == p;
      }
    }
  }

  /** On a chronological index, a row whose month differs from the previous
      row's has a month no earlier row shares. */
  lemma NewMonthIsFresh(dates: seq<Date>, i: nat)
    requires Chronological(dates)
    requires 0 < i < |dates| && ToPeriod(dates[i]) != ToPeriod(dates[i - 1])
    ensures forall j :: 0 <= j < i ==> ToPeriod(dates[j]) != ToPeriod(dates[i])
  {
  }

  /** On a chronological index the mask is true exactly at row 0 and at
      every row whose month differs from the previous row's: the first
      trading day of each month. */
  lemma MaskMarksMonthStarts(dates: seq<Date>)
    requires Chronological(dates)
    ensures forall i :: 0 <= i < |dates| ==>
              (RebalanceMask(dates)[i] <==> i == 0 || ToPeriod(dates[i]) != ToPeriod(dates[i - 1]))
  {
    forall i | 0 <= i < |dates|
      ensures RebalanceMask(dates)[i] <==> i == 0 || ToPeriod(dates[i]) != ToPeriod(dates[i - 1])
    {
      if 0 < i && ToPeriod(dates[i]) != ToPeriod(dates[i - 1]) {
        NewMonthIsFresh(dates, i);
      }
    }
  }

  /** The monthly-rebalancing `rb_size`: the concatenated weights in every
      row that starts a calendar month, NaN (no order) elsewhere. */
  method MonthlySize(dates: seq<Date>, weights: seq<seq<Float>>) returns (size: array2<Float>)
    ensures fresh(size) && size.Length0 == |dates| && size.Length1 == |Concat(weights)|
    ensures forall i, j :: 0 <= i < |dates| && 0 <= j < size.Length1 ==>
              size[i, j] == if RebalanceMask(dates)[i] then Concat(weights)[j] else NaN
  {
    var mask := RebalanceMask(dates);
    var flat := Concat(weights);
    size := FullNaN(|dates|, |flat|);
    AssignMaskedRows(size, mask, flat);
  }
}
