/** The Monte-Carlo Sharpe-ratio search of the periodic rebalancing
    strategy (`find_weights_nb`): simple returns of a price window, the
    first return row dropped, then a best-of-N scan over random candidate
    weights that keeps a candidate only when it is strictly better.

    The Sharpe estimate (mean, covariance, annualisation, square root) is
    not modelled: it is the parameter `sharpe`, a total function of the
    window's returns and a candidate's weights. */
module WeightSearch {
  import opened Numeric
  import opened RandomWeights

  /** A price window: one row per time step, `width` assets per row. */
  predicate IsPanel(p: seq<seq<real>>, width: nat) {
    forall t :: 0 <= t < |p| ==> |p[t]| == width
  }

  /** The IEEE simple return of one asset from `base` to `next`: on a
      non-zero base it is finite and carries the base to the next price. */
  function SimpleReturn(base: real, next: real): (r: Float)
    ensures base != 0.0 ==> r.Fin? && base * (1.0 + r.v) == next
  {
    assert base != 0.0 ==> base * ((next - base) / base) == next - base;
    Div(next - base, base)
  }

  /** `(price[1:] - price[:-1]) / price[:-1]`: one row fewer than the window. */
  function SimpleReturns(p: seq<seq<real>>, width: nat): (r: seq<seq<Float>>)
    requires IsPanel(p, width)
    ensures |r| == if |p| == 0 then 0 else |p| - 1
    ensures forall t :: 0 <= t < |r| ==> |r[t]| == width
    ensures forall t, j :: 0 <= t < |r| && 0 <= j < width ==> r[t][j] == SimpleReturn(p[t][j], p[t + 1][j])
  {
    if |p| == 0 then []
    else
      seq(|p| - 1, t requires 0 <= t < |p| - 1 =>
        seq(width, j requires 0 <= j < width => SimpleReturn(p[t][j], p[t + 1][j])))
  }

  /** The returns the statistics are computed from: the simple returns with
      their first row dropped (`returns[1:, :]`), so a window of n rows
      yields n - 2 rows of returns (none when n < 2), and return row t is the
      change from price row t + 1 to price row t + 2. */
  function WindowReturns(p: seq<seq<real>>, width: nat): (r: seq<seq<Float>>)
    requires IsPanel(p, width)
    ensures |r| == if |p| >= 2 then |p| - 2 else 0
    ensures forall t :: 0 <= t < |r| ==> |r[t]| == width
    ensures forall t, j :: 0 <= t < |r| && 0 <= j < width ==>
              r[t][j] == SimpleReturn(p[t + 1][j], p[t + 2][j])
  {
    var all := SimpleReturns(p, width);
    if |all| == 0 then [] else all[1..]
  }

  /** Dropping the first return row makes the window's first price row
      irrelevant: two windows that differ only in row 0 give the same
      returns. */
  lemma FirstPriceRowIgnored(p: seq<seq<real>>, q: seq<seq<real>>, width: nat)
    requires IsPanel(p, width) && IsPanel(q, width)
    requires |p| == |q| >= 1 && p[1..] == q[1..]
    ensures WindowReturns(p, width) == WindowReturns(q, width)
  {
    assert forall t :: 1 <= t < |p| ==> p[t] == p[1..][t - 1] == q[t];
  }

  /** What a search returns: the best Sharpe ratio and its weights. */
  datatype Outcome = Outcome(sharpe: Float, weights: seq<Float>)

  /** The scan over candidates 0 .. |scores| - 1: start from -inf with all-NaN
      weights and replace the current best only when `score > best`. */
  function BestOf(scores: seq<Float>, cands: seq<seq<Float>>, groupLen: nat): (r: Outcome)
    requires |scores| == |cands|
    ensures r == Outcome(NegInf, NaNs(groupLen))
            || exists k :: 0 <= k < |scores| && r == Outcome(scores[k], cands[k])
    decreases |scores|
  {
    if |scores| == 0 then Outcome(NegInf, NaNs(groupLen))
    else
      var n := |scores| - 1;
      var prev := BestOf(scores[..n], cands[..n], groupLen);
      assert forall k :: 0 <= k < n ==> scores[..n][k] == scores[k] && cands[..n][k] == cands[k];
      if Gt(scores[n], prev.sharpe) then Outcome(scores[n], cands[n]) else prev
  }

  /** The best Sharpe ratio is never NaN and no candidate's score exceeds
      it (a NaN score exceeds nothing). */
  lemma {:induction false} BestIsUpperBound(scores: seq<Float>, cands: seq<seq<Float>>, groupLen: nat)
    requires |scores| == |cands|
    ensures BestOf(scores, cands, groupLen).sharpe != NaN
    ensures forall j :: 0 <= j < |scores| ==> !Gt(scores[j], BestOf(scores, cands, groupLen).sharpe)
    decreases |scores|
  {
    if |scores| > 0 {
      var n := |scores| - 1;
      BestIsUpperBound(scores[..n], cands[..n], groupLen);
      var prev := BestOf(scores[..n], cands[..n], groupLen);
      forall j | 0 <= j < n
        ensures !Gt(scores[j], prev.sharpe)
      {
        assert scores[j] == scores[..n][j];
      }
    }
  }

  /** The search stays at -inf with all-NaN weights exactly when no
      candidate scores above -inf (for instance when there are none). */
  lemma {:induction false} NoImprovementKeepsInitial(scores: seq<Float>, cands: seq<seq<Float>>, groupLen: nat)
    requires |scores| == |cands|
    ensures (forall j :: 0 <= j < |scores| ==> !Gt(scores[j], NegInf))
              <==> BestOf(scores, cands, groupLen) == Outcome(NegInf, NaNs(groupLen))
    decreases |scores|
  {
    if |scores| > 0 {
      var n := |scores| - 1;
      NoImprovementKeepsInitial(scores[..n], cands[..n], groupLen);
      BestIsUpperBound(scores[..n], cands[..n], groupLen);
      assert forall j :: 0 <= j < n ==> scores[..n][j] == scores[j];
    }
  }

  /** When the search found something, its result is the earliest candidate
      attaining the best score: every earlier candidate scored differently
      (and, by BestIsUpperBound, not higher). */
  lemma {:induction false} BestIsEarliest(scores: seq<Float>, cands: seq<seq<Float>>, groupLen: nat)
    requires |scores| == |cands|
    ensures BestOf(scores, cands, groupLen).sharpe != NegInf ==>
              exists k :: 0 <= k < |scores|
                && BestOf(scores, cands, groupLen) == Outcome(scores[k], cands[k])
                && forall j :: 0 <= j < k ==> scores[j] != scores[k]
    decreases |scores|
  {
    if |scores| > 0 {
      var n := |scores| - 1;
      var prev := BestOf(scores[..n], cands[..n], groupLen);
      BestIsEarliest(scores[..n], cands[..n], groupLen);
      BestIsUpperBound(scores[..n], cands[..n], groupLen);
      var r := BestOf(scores, cands, groupLen);
      if Gt(scores[n], prev.sharpe) {
        forall j | 0 <= j < n
          ensures scores[j] != scores[n]
        {
          assert !Gt(scores[..n][j], prev.sharpe);
        }
        assert r == Outcome(scores[n], cands[n]);
      } else if prev.sharpe != NegInf {
        var k :| 0 <= k < n && prev == Outcome(scores[..n][k], cands[..n][k])
                 && forall j :: 0 <= j < k ==> scores[..n][j] != scores[..n][k];
        assert scores[..n][k] == scores[k] && cands[..n][k] == cands[k];
        forall j | 0 <= j < k
          ensures scores[j] != scores[k]
        {
          assert scores[..n][j] == scores[j];
        }
        assert r == Outcome(scores[k], cands[k]);
      }
    }
  }

  /** The candidate weights of a search: each row of draws, normalised. */
  function Candidates(draws: seq<seq<real>>): (c: seq<seq<Float>>)
    ensures |c| == |draws|
  {
    seq(|draws|, i requires 0 <= i < |draws| => Normalize(draws[i]))
  }

  /** The Sharpe estimate of every candidate over the given returns. */
  function Scores(rets: seq<seq<Float>>, cands: seq<seq<Float>>,
                  sharpe: (seq<seq<Float>>, seq<Float>) -> Float): (s: seq<Float>)
    ensures |s| == |cands|
  {
    seq(|cands|, i requires 0 <= i < |cands| => sharpe(rets, cands[i]))
  }

  /** The whole search over a price window. */
  function Search(price: seq<seq<real>>, groupLen: nat, draws: seq<seq<real>>,
                  sharpe: (seq<seq<Float>>, seq<Float>) -> Float): (r: Outcome)
    requires IsPanel(price, groupLen)
    ensures r == Outcome(NegInf, NaNs(groupLen))
            || exists k :: 0 <= k < |draws|
                 && r.weights == Normalize(draws[k])
                 && r.sharpe == sharpe(WindowReturns(price, groupLen), Normalize(draws[k]))
  {
    var cands := Candidates(draws);
    BestOf(Scores(WindowReturns(price, groupLen), cands, sharpe), cands, groupLen)
  }

  /** If every row of draws has a positive sum, whatever the search returns
      is either a long-only, fully invested allocation or, when nothing
      scored above -inf, the all-NaN vector. */
  lemma SearchYieldsDistribution(price: seq<seq<real>>, groupLen: nat, draws: seq<seq<real>>,
                                 sharpe: (seq<seq<Float>>, seq<Float>) -> Float)
    requires IsPanel(price, groupLen)
    requires forall i :: 0 <= i < |draws| ==> IsSample(draws[i]) && Sum(draws[i]) > 0.0
    ensures var r := Search(price, groupLen, draws, sharpe);
            IsDistribution(r.weights) || (r.sharpe == NegInf && r.weights == NaNs(groupLen))
  {
    var cands := Candidates(draws);
    var scores := Scores(WindowReturns(price, groupLen), cands, sharpe);
    var r := BestOf(scores, cands, groupLen);
    BestIsEarliest(scores, cands, groupLen);
    NoImprovementKeepsInitial(scores, cands, groupLen);
    if r.sharpe != NegInf {
      var k :| 0 <= k < |scores| && r == Outcome(scores[k], cands[k])
               && forall j :: 0 <= j < k ==> scores[j] != scores[k];
      PositiveSumNormalizes(draws[k]);
    } else {
      assert forall j :: 0 <= j < |scores| ==> !Gt(scores[j], NegInf) by {
        BestIsUpperBound(scores, cands, groupLen);
      }
    }
  }

  /** `find_weights_nb`: compute the window's returns, then for each of
      `numTests` candidates normalise the next row of draws, score it, and
      keep it when its score is strictly greater than the best so far. */
  method FindWeights(groupLen: nat, price: seq<seq<real>>, numTests: nat, draws: seq<seq<real>>,
                     sharpe: (seq<seq<Float>>, seq<Float>) -> Float)
    returns (bestSharpe: Float, weights: seq<Float>)
    requires IsPanel(price, groupLen)
    requires |draws| == numTests
    requires forall i :: 0 <= i < numTests ==> |draws[i]| == groupLen
    ensures Outcome(bestSharpe, weights) == Search(price, groupLen, draws, sharpe)
  {
    var rets := WindowReturns(price, groupLen);
    ghost var cands := Candidates(draws);
    ghost var scores := Scores(rets, cands, sharpe);
    bestSharpe := NegInf;
    weights := NaNs(groupLen);
    for i := 0 to numTests
      invariant Outcome(bestSharpe, weights) == BestOf(scores[..i], cands[..i], groupLen)
    {
      var w := Normalize(draws[i]);
      var sharpeRatio := sharpe(rets, w);
      assert scores[..i + 1][..i] == scores[..i] && cands[..i + 1][..i] == cands[..i];
      if Gt(sharpeRatio, bestSharpe) {
        bestSharpe := sharpeRatio;
        weights := w;
      }
    }
    assert scores[..numTests] == scores && cands[..numTests] == cands;
  }
}
