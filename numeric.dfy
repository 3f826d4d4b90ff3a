/** Numbers as the portfolio script sees them: float64 values that may be
    NaN or infinite, compared and divided with IEEE-754 semantics, and plain
    sums of reals. Rounding is not modelled: a finite float is a real. */
module Numeric {

  /** A float64: a finite value, one of the two infinities, or NaN. */
  datatype Float = NaN | NegInf | PosInf | Fin(v: real)

  /** IEEE-754 `a > b`: false whenever either operand is NaN. */
  predicate Gt(a: Float, b: Float)
    ensures Gt(a, b) ==> a != NaN && b != NaN && a != NegInf && b != PosInf
    ensures a.Fin? && b.Fin? ==> (Gt(a, b) <==> a.v > b.v)
  {
    match a
    case NaN => false
    case NegInf => false
    case PosInf => b.NegInf? || b.Fin?
    case Fin(x) => b.NegInf? || (b.Fin? && x > b.v)
  }

  /** IEEE-754 division of two finite operands: a zero divisor gives an
      infinity with the sign of the dividend, or NaN for 0/0. */
  function Div(a: real, b: real): (r: Float)
    ensures b != 0.0 ==> r.Fin? && r.v * b == a
    ensures b == 0.0 ==> (r == NaN <==> a == 0.0) && (r == PosInf <==> a > 0.0) && (r == NegInf <==> a < 0.0)
  {
    if b != 0.0 then Fin(a / b)
    else if a > 0.0 then PosInf
    else if a < 0.0 then NegInf
    else NaN
  }

  /** `np.full(n, np.nan)`. */
  function NaNs(n: nat): (s: seq<Float>)
    ensures |s| == n && forall k :: 0 <= k < n ==> s[k] == NaN
  {
    seq(n, _ => NaN)
  }

  /** The sum of a sequence of reals. */
  function Sum(s: seq<real>): real {
    if s == [] then 0.0 else s[0] + Sum(s[1..])
  }

  /** Dividing both sides of `a <= b` by a positive number keeps the order. */
  lemma DivMonotone(a: real, b: real, t: real)
    requires a <= b && t > 0.0
    ensures a / t <= b / t
  {
    assert (b - a) / t >= 0.0;
    assert b / t - a / t == (b - a) / t;
  }

  lemma DivSelf(t: real)
    requires t > 0.0
    ensures t / t == 1.0
  {
  }
}
