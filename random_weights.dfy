/** The random candidate weights of the one-time allocation search: each
    candidate is one row of uniform draws in [0, 1), divided by its own sum.
    The draws themselves are an input (the random number generator is not
    modelled). */
module RandomWeights {
  import opened Numeric

  /** One call of `np.random.random_sample(n)`: every draw lies in [0, 1). */
  ghost predicate IsSample(d: seq<real>) {
    forall k :: 0 <= k < |d| ==> 0.0 <= d[k] < 1.0
  }

  /** `w / np.sum(w)` in float64: each draw divided by the total, so an
      all-zero draw gives 0/0, that is NaN, in every entry. */
  function Normalize(d: seq<real>): (w: seq<Float>)
    ensures |w| == |d|
    ensures Sum(d) != 0.0 ==> forall k :: 0 <= k < |d| ==> w[k].Fin? && w[k].v * Sum(d) == d[k]
  {
    var total := Sum(d);
    seq(|d|, k requires 0 <= k < |d| => Div(d[k], total))
  }

  /** The finite values of a weight vector; a non-finite entry reads as 0. */
  function Values(w: seq<Float>): (r: seq<real>)
    ensures |r| == |w|
  {
    seq(|w|, k requires 0 <= k < |w| => if w[k].Fin? then w[k].v else 0.0)
  }

  /** A long-only, fully invested allocation: finite weights in [0, 1]
      that sum to 1. */
  ghost predicate IsDistribution(w: seq<Float>) {
    && (forall k :: 0 <= k < |w| ==> w[k].Fin? && 0.0 <= w[k].v <= 1.0)
    && Sum(Values(w)) == 1.0
  }

  lemma {:induction false} SumNonNegative(d: seq<real>)
    requires forall k :: 0 <= k < |d| ==> 0.0 <= d[k]
    ensures Sum(d) >= 0.0
  {
    if d != [] {
      SumNonNegative(d[1..]);
    }
  }

  /** Every non-negative term is at most the sum; a zero sum forces every term to 0. */
  lemma {:induction false} TermBelowSum(d: seq<real>, k: nat)
    requires forall j :: 0 <= j < |d| ==> 0.0 <= d[j]
    requires k < |d|
    ensures d[k] <= Sum(d)
  {
    SumNonNegative(d[1..]);
    if k > 0 {
      TermBelowSum(d[1..], k - 1);
    }
  }

  /** Dividing every term by `t` divides the sum by `t`. */
  lemma {:induction false} SumScaled(d: seq<real>, t: real)
    requires t != 0.0
    ensures Sum(seq(|d|, k requires 0 <= k < |d| => d[k] / t)) == Sum(d) / t
  {
    var scaled := seq(|d|, k requires 0 <= k < |d| => d[k] / t);
    if d != [] {
      SumScaled(d[1..], t);
      assert scaled[1..] == seq(|d[1..]|, k requires 0 <= k < |d[1..]| => d[1..][k] / t);
      assert Sum(scaled) == d[0] / t + Sum(d[1..]) / t;
    }
  }

  /** A draw with a positive sum normalises to a long-only, fully invested
      allocation. */
  lemma {:induction false} PositiveSumNormalizes(d: seq<real>)
    requires IsSample(d) && Sum(d) > 0.0
    ensures IsDistribution(Normalize(d))
  {
    var w := Normalize(d);
    var total := Sum(d);
    forall k | 0 <= k < |d|
      ensures w[k].Fin? && 0.0 <= w[k].v <= 1.0
    {
      TermBelowSum(d, k);
      assert w[k] == Fin(d[k] / total);
      DivMonotone(d[k], total, total);
      DivSelf(total);
    }
    assert Values(w) == seq(|d|, k requires 0 <= k < |d| => d[k] / total);
    SumScaled(d, total);
    DivSelf(total);
  }

  /** A draw whose sum is zero consists of zeros and normalises to all NaN. */
  lemma {:induction false} ZeroSumNormalizesToNaN(d: seq<real>)
    requires IsSample(d) && Sum(d) == 0.0
    ensures Normalize(d) == NaNs(|d|)
  {
    forall k | 0 <= k < |d|
      ensures d[k] == 0.0
    {
      TermBelowSum(d, k);
    }
  }

  /** The two outcomes of normalising a draw, each in both directions: a
      positive sum gives a long-only, fully invested allocation, and a zero
      sum (all draws 0.0) gives all NaN. */
  lemma {:induction false} NormalizeOutcome(d: seq<real>)
    requires IsSample(d)
    ensures Sum(d) > 0.0 <==> IsDistribution(Normalize(d))
    ensures Sum(d) == 0.0 <==> Normalize(d) == NaNs(|d|)
  {
    var w := Normalize(d);
    SumNonNegative(d);
    if Sum(d) > 0.0 {
      PositiveSumNormalizes(d);
      if |d| > 0 {
        assert w[0].Fin?;
      }
    } else {
      ZeroSumNormalizesToNaN(d);
      if |d| == 0 {
        assert Values(w) == [];
      } else {
        assert !w[0].Fin?;
      }
    }
  }

  /** The loop that builds the candidate list: `num_tests` times, take the
      next row of draws and normalise it, appending the result. */
  method GenerateWeights(numTests: nat, numSymbols: nat, draws: seq<seq<real>>)
    returns (weights: seq<seq<Float>>)
    requires |draws| == numTests
    requires forall i :: 0 <= i < numTests ==> |draws[i]| == numSymbols && IsSample(draws[i])
    ensures |weights| == numTests
    ensures forall i :: 0 <= i < numTests ==> weights[i] == Normalize(draws[i])
    ensures forall i :: 0 <= i < numTests ==> |weights[i]| == numSymbols
    ensures forall i :: 0 <= i < numTests ==>
              IsDistribution(weights[i]) || weights[i] == NaNs(numSymbols)
  {
    weights := [];
    for i := 0 to numTests
      invariant |weights| == i
      invariant forall j :: 0 <= j < i ==> weights[j] == Normalize(draws[j])
      invariant forall j :: 0 <= j < i ==>
                  IsDistribution(weights[j]) || weights[j] == NaNs(numSymbols)
    {
      var w := Normalize(draws[i]);
      NormalizeOutcome(draws[i]);
      SumNonNegative(draws[i]);
      weights := weights + [w];
    }
  }
}
