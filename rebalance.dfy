/** The callbacks the periodic search-and-rebalance strategy hands to the
    order-function simulator: `pre_sim_func_nb` picks the rebalancing rows,
    `pre_segment_func_nb` chooses the lookback window, runs the weight
    search and records its result, and `order_func_nb` turns the chosen
    weights into one target-percent order per asset.

    The simulator's context objects are immutable records whose array
    fields the callbacks write into; they are datatypes here, holding the
    arrays. */
module Rebalance {
  import opened Numeric
  import opened WeightSearch

  /** Row `i` is a rebalancing row: `every_nth, 2 * every_nth, ...`. */
  predicate IsRebalanceRow(i: nat, everyNth: nat) {
    everyNth > 0 && i >= everyNth && i % everyNth == 0
  }

  lemma MulLtCancel(a: int, b: int, e: int)
    requires e > 0 && a * e < b * e
    ensures a < b
  {
  }

  /** No multiple of `everyNth` lies strictly between two consecutive ones. */
  lemma {:induction false} NoMultipleBetween(i: nat, k: nat, everyNth: nat)
    requires everyNth > 0
    requires k * everyNth < i < (k + 1) * everyNth
    ensures i % everyNth != 0
  {
    var q, r := i / everyNth, i % everyNth;
    assert i == q * everyNth + r && 0 <= r < everyNth;
    assert (q + 1) * everyNth == q * everyNth + everyNth;
    MulLtCancel(k, q + 1, everyNth);
    MulLtCancel(q, k + 1, everyNth);
    assert q == k;
  }

  /** `mask[row, :] = value`. */
  method FillRow(mask: array2<bool>, row: nat, value: bool)
    requires row < mask.Length0
    modifies mask
    ensures forall r, g :: 0 <= r < mask.Length0 && 0 <= g < mask.Length1 ==>
              mask[r, g] == if r == row then value else old(mask[r, g])
  {
    for g := 0 to mask.Length1
      invariant forall r, h :: 0 <= r < mask.Length0 && 0 <= h < mask.Length1 ==>
                  mask[r, h] == if r == row && h < g then value else old(mask[r, h])
    {
      mask[row, g] := value;
    }
  }

  /** A multiple of `everyNth` leaves no remainder. */
  lemma MultipleIsDivisible(k: nat, everyNth: nat)
    requires everyNth > 0
    ensures (k * everyNth) % everyNth == 0
  {
    var q, r := (k * everyNth) / everyNth, (k * everyNth) % everyNth;
    assert k * everyNth == q * everyNth + r && 0 <= r < everyNth;
    if r != 0 {
      MulLtCancel(q, k, everyNth);
      MulLtCancel(k, q + 1, everyNth);
    }
  }

  /** Going one stride further adds exactly row `row` to the rebalancing
      rows below `row`. */
  lemma {:induction false} NextStride(row: nat, k: nat, everyNth: nat)
    requires everyNth > 0 && k >= 1 && row == k * everyNth
    ensures forall r :: 0 <= r < row + everyNth ==>
              (IsRebalanceRow(r, everyNth) <==> (IsRebalanceRow(r, everyNth) && r < row) || r == row)
  {
    forall r | 0 <= r < row + everyNth
      ensures IsRebalanceRow(r, everyNth) <==> (IsRebalanceRow(r, everyNth) && r < row) || r == row
    {
      if r == row {
        MultipleIsDivisible(k, everyNth);
        assert row >= everyNth;
      } else if r > row {
        assert row + everyNth == (k + 1) * everyNth;
        NoMultipleBetween(r, k, everyNth);
      }
    }
  }

  /** `pre_sim_func_nb`: clear the whole segment mask, then set every row
      of the slice `every_nth::every_nth`, in every group column. Row 0 is
      never a rebalancing row, and nothing of the old mask survives. */
  method PreSim(segmentMask: array2<bool>, everyNth: nat)
    requires everyNth > 0
    modifies segmentMask
    ensures forall i, g :: 0 <= i < segmentMask.Length0 && 0 <= g < segmentMask.Length1 ==>
              segmentMask[i, g] == IsRebalanceRow(i, everyNth)
  {
    var rows := segmentMask.Length0;
    // segment_mask[:, :] = False
    for i := 0 to rows
      invariant forall r, g :: 0 <= r < i && 0 <= g < segmentMask.Length1 ==> !segmentMask[r, g]
    {
      FillRow(segmentMask, i, false);
    }
    // segment_mask[every_nth::every_nth, :] = True
    var row := everyNth;
    ghost var k := 1;
    while row < rows
      invariant row == k * everyNth && k >= 1
      invariant forall r, g :: 0 <= r < rows && 0 <= g < segmentMask.Length1 ==>
                  segmentMask[r, g] == (IsRebalanceRow(r, everyNth) && r < row)
    {
      FillRow(segmentMask, row, true);
      NextStride(row, k, everyNth);
      row, k := row + everyNth, k + 1;
    }
  }

  /** Where `pre_segment_func_nb` looks back from row `i`: either not enough
      data, or the rows of the slice `start:stop`. */
  datatype Lookback = InsufficientData | Window(start: int, stop: int)

  /** The number of rows a Python slice `start:stop` selects when both ends
      are within bounds. */
  function RowCount(w: Lookback): nat
    requires w.Window?
  {
    if w.start < w.stop then w.stop - w.start else 0
  }

  /** The lookback rule: `history_len == -1` looks back at every earlier
      row; otherwise the fixed window needs `i - history_len > 0`, so a
      window reaching back to row 0 or before counts as insufficient. */
  function LookbackWindow(i: nat, historyLen: int): (w: Lookback)
    ensures w.InsufficientData? <==> historyLen != -1 && i <= historyLen
    ensures w.Window? ==> w.stop == i && 0 <= w.start
    ensures w.Window? ==> RowCount(w) == if historyLen == -1 then i
                                         else if historyLen >= 0 then historyLen
                                         else 0
  {
    if historyLen == -1 then Window(0, i)
    else if i - historyLen <= 0 then InsufficientData
    else Window(i - historyLen, i)
  }

  /** `c.close[start:stop, from_col:to_col]` as a price window. */
  function CloseWindow(close: array2<real>, w: Lookback, fromCol: nat, toCol: nat): (p: seq<seq<real>>)
    reads close
    requires w.Window? && 0 <= w.start && w.stop <= close.Length0
    requires fromCol <= toCol <= close.Length1
    ensures IsPanel(p, toCol - fromCol) && |p| == RowCount(w)
    ensures forall t, k :: 0 <= t < |p| && 0 <= k < toCol - fromCol ==>
              p[t][k] == close[w.start + t, fromCol + k]
  {
    if w.start >= w.stop then []
    else
      seq(w.stop - w.start, t requires 0 <= t < w.stop - w.start reads close =>
        seq(toCol - fromCol, k requires 0 <= k < toCol - fromCol reads close =>
          close[w.start + t, fromCol + k]))
  }

  /** The segment context: the current row `i`, the group's columns
      `from_col .. to_col - 1`, the close prices, and the valuation prices
      the callback may overwrite. */
  datatype SegmentContext = SegmentContext(
    i: nat, fromCol: nat, toCol: nat, groupLen: nat,
    close: array2<real>, lastValPrice: array<real>)
  {
    /** The shape the simulator guarantees. */
    predicate Valid() {
      && i < close.Length0
      && fromCol <= toCol <= close.Length1
      && groupLen == toCol - fromCol
      && lastValPrice.Length == close.Length1
    }
  }

  /** `pre_segment_func_nb` as declared (`find_weights_nb` being the search
      of WeightSearch): with insufficient data it returns all-NaN weights
      and writes nothing; otherwise it searches the lookback window,
      records the best Sharpe ratio at row `i` of `srb_sharpe`, sets the
      group's valuation prices to this row's closes, and returns the
      weights found. */
  method PreSegment(c: SegmentContext, historyLen: int, numTests: nat, draws: seq<seq<real>>,
                    sharpe: (seq<seq<Float>>, seq<Float>) -> Float, srbSharpe: array<Float>)
    returns (weights: seq<Float>)
    requires c.Valid() && srbSharpe.Length == c.close.Length0
    requires |draws| == numTests
    requires forall n :: 0 <= n < numTests ==> |draws[n]| == c.groupLen
    modifies srbSharpe, c.lastValPrice
    ensures LookbackWindow(c.i, historyLen).InsufficientData? ==>
              && weights == NaNs(c.groupLen)
              && srbSharpe[..] == old(srbSharpe[..])
              && c.lastValPrice[..] == old(c.lastValPrice[..])
    ensures LookbackWindow(c.i, historyLen).Window? ==>
              var found := Search(CloseWindow(c.close, LookbackWindow(c.i, historyLen), c.fromCol, c.toCol),
                                  c.groupLen, draws, sharpe);
              && weights == found.weights
              && srbSharpe[..] == old(srbSharpe[..])[c.i := found.sharpe]
              && forall col :: 0 <= col < c.lastValPrice.Length ==>
                   c.lastValPrice[col] == if c.fromCol <= col < c.toCol then c.close[c.i, col]
                                          else old(c.lastValPrice[col])
  {
    var window := LookbackWindow(c.i, historyLen);
    if window.InsufficientData? {
      return NaNs(c.groupLen);
    }
    var close := CloseWindow(c.close, window, c.fromCol, c.toCol);
    var bestSharpe;
    bestSharpe, weights := FindWeights(c.groupLen, close, numTests, draws, sharpe);
    srbSharpe[c.i] := bestSharpe;
    SetValuationPrices(c);
  }

  /** `c.last_val_price[from_col:to_col] = c.close[i, from_col:to_col]`:
      the group's columns take this row's closes, the others keep theirs. */
  method SetValuationPrices(c: SegmentContext)
    requires c.Valid()
    modifies c.lastValPrice
    ensures forall col :: 0 <= col < c.lastValPrice.Length ==>
              c.lastValPrice[col] == if c.fromCol <= col < c.toCol then c.close[c.i, col]
                                     else old(c.lastValPrice[col])
  {
    for k := 0 to c.groupLen
      invariant forall col :: 0 <= col < c.lastValPrice.Length ==>
                  c.lastValPrice[col] == if c.fromCol <= col < c.fromCol + k then c.close[c.i, col]
                                         else old(c.lastValPrice[col])
    {
      var col := c.fromCol + k;
      c.lastValPrice[col] := c.close[c.i, col];
    }
  }

  /** How `order_nb` reads its size: as a target percentage of group value. */
  datatype SizeType = TargetPercent

  /** The order `order_func_nb` hands to the simulator. A NaN size places
      no order. */
  datatype Order = Order(size: Float, price: real, sizeType: SizeType)

  /** The order context: the current row and column, the group's first
      column, and the position `call_idx` within this row's call sequence. */
  datatype OrderContext = OrderContext(
    i: nat, col: nat, fromCol: nat, callIdx: nat, callSeqNow: seq<nat>, close: array2<real>)

  /** `order_func_nb`: a target-percent order, priced at this row's close of
      the current column, whose size is the weight of the asset the call
      sequence puts at position `call_idx`. */
  function OrderFunc(c: OrderContext, weights: seq<Float>): (o: Order)
    reads c.close
    requires c.callIdx < |c.callSeqNow| && c.callSeqNow[c.callIdx] < |weights|
    requires c.i < c.close.Length0 && c.col < c.close.Length1
    ensures o.sizeType == TargetPercent && o.price == c.close[c.i, c.col]
    ensures o.size in weights
  {
    var colIdx := c.callSeqNow[c.callIdx];
    Order(weights[colIdx], c.close[c.i, c.col], TargetPercent)
  }

  /** The simulator processes column `from_col + call_seq_now[call_idx]` at
      position `call_idx`; under that correspondence every asset is ordered
      to its own weight, and all-NaN weights (insufficient data) place no
      order at all. */
  lemma OrderTargetsOwnWeight(c: OrderContext, weights: seq<Float>)
    requires c.callIdx < |c.callSeqNow| && c.callSeqNow[c.callIdx] < |weights|
    requires c.i < c.close.Length0 && c.col < c.close.Length1
    requires c.col == c.fromCol + c.callSeqNow[c.callIdx]
    ensures OrderFunc(c, weights).size == weights[c.col - c.fromCol]
    ensures weights == NaNs(|weights|) ==> OrderFunc(c, weights).size == NaN
  {
  }
}
