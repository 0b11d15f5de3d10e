/** Timing data: one record per observed pulse period, as in the structured
    arrays with fields `t`, `p0` and `perr` that the fitters and the guesser read. */
module Timing {
  import opened PyFloat

  /** An observation: epoch `t`, observed period `p0` and its uncertainty `perr`. */
  datatype Obs = Obs(t: real, p0: real, perr: real)

  /** The column `data['t']`. */
  function Epochs(data: seq<Obs>): seq<real>
  {
    seq(|data|, i requires 0 <= i < |data| => data[i].t)
  }

  /** Every uncertainty can be divided by. */
  predicate NonZeroErrors(data: seq<Obs>) {
    forall i :: 0 <= i < |data| ==> data[i].perr != 0.0
  }

  function WeightedSquares(resid: seq<real>, data: seq<Obs>): seq<real>
    requires |resid| == |data| && NonZeroErrors(data)
  {
    seq(|resid|, i requires 0 <= i < |resid| => Square(resid[i] / data[i].perr))
  }

  /** `sum((resid / perr) ** 2)`: never negative, and zero exactly when every
      residual is zero. */
  function ChiSquare(resid: seq<real>, data: seq<Obs>): (r: real)
    requires |resid| == |data| && NonZeroErrors(data)
    ensures 0.0 <= r
    ensures r == 0.0 <==> AllZero(resid)
  {
    var terms := WeightedSquares(resid, data);
    assert AllNonNegative(terms) by {
      forall i | 0 <= i < |terms| ensures 0.0 <= terms[i] {
        SquareSign(resid[i] / data[i].perr);
      }
    }
    SumNonNegative(terms);
    assert AllZero(terms) <==> AllZero(resid) by {
      forall i | 0 <= i < |terms| ensures terms[i] == 0.0 <==> resid[i] == 0.0 {
        SquareSign(resid[i] / data[i].perr);
        QuotientZero(resid[i], data[i].perr);
      }
    }
    Sum(terms)
  }

  lemma QuotientZero(a: real, b: real)
    requires b != 0.0
    ensures a / b == 0.0 <==> a == 0.0
  {
  }
}
