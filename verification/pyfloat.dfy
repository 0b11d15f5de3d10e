/** Python float arithmetic over `real`: the floored remainder `%` and the builtin `sum`. */
module PyFloat {

  /** `x % m` on Python and numpy floats: the remainder has the sign of the divisor. */
  function FloorMod(x: real, m: real): (r: real)
    requires m != 0.0
    ensures m > 0.0 ==> 0.0 <= r < m
    ensures m < 0.0 ==> m < r <= 0.0
  {
    var q := (x / m).Floor;
    FloorQuotientBounds(x, m);
    x - m * (q as real)
  }

  lemma FloorQuotientBounds(x: real, m: real)
    requires m != 0.0
    ensures m > 0.0 ==> 0.0 <= x - m * ((x / m).Floor as real) < m
    ensures m < 0.0 ==> m < x - m * ((x / m).Floor as real) <= 0.0
    ensures IsInteger((x - (x - m * ((x / m).Floor as real))) / m)
  {
    var qr := (x / m).Floor as real;
    if m > 0.0 {
      PositiveDivisorBounds(x, m, qr);
    } else {
      NegativeDivisorBounds(x, m, qr);
    }
    var a := m * qr;
    assert x - (x - a) == a;
    assert a / m == qr;
    assert qr.Floor as real == qr;
  }

  lemma PositiveDivisorBounds(x: real, m: real, qr: real)
    requires 0.0 < m && qr <= x / m < qr + 1.0
    ensures 0.0 <= x - m * qr < m
  {
    QuotientLower(x, m, qr);
    QuotientUpper(x, m, qr);
  }

  lemma QuotientLower(x: real, m: real, qr: real)
    requires 0.0 < m && qr <= x / m
    ensures m * qr <= x
  {
    var y := x / m;
    assert m * y == x;
    MulMonotonic(m, qr, y);
  }

  lemma QuotientUpper(x: real, m: real, qr: real)
    requires 0.0 < m && x / m < qr + 1.0
    ensures x < m * qr + m
  {
    var y := x / m;
    assert m * y == x;
    MulStrict(m, y, qr + 1.0);
    assert m * (qr + 1.0) == m * qr + m;
  }

  lemma NegativeDivisorBounds(x: real, m: real, qr: real)
    requires m < 0.0 && qr <= x / m < qr + 1.0
    ensures m < x - m * qr <= 0.0
  {
    assert (-m) * (x / m) == -x;
    assert (-m) * (qr + 1.0) == -(m * qr) - m;
    assert (-m) * qr == -(m * qr);
    MulMonotonic(-m, qr, x / m);
    MulStrict(-m, x / m, qr + 1.0);
  }

  lemma MulMonotonic(m: real, a: real, b: real)
    requires 0.0 < m && a <= b
    ensures m * a <= m * b
  {
    assert m * b - m * a == m * (b - a);
  }

  lemma MulStrict(m: real, a: real, b: real)
    requires 0.0 < m && a < b
    ensures m * a < m * b
  {
    assert m * b - m * a == m * (b - a);
  }

  /** The remainder differs from the dividend by a whole number of divisors. */
  lemma FloorModCongruent(x: real, m: real)
    requires m != 0.0
    ensures IsInteger((x - FloorMod(x, m)) / m)
  {
    FloorQuotientBounds(x, m);
  }

  predicate IsInteger(y: real) {
    y.Floor as real == y
  }

  /** Shifting the dividend by a whole number of divisors does not change the remainder. */
  lemma FloorModPeriodic(x: real, m: real, k: int)
    requires m != 0.0
    ensures FloorMod(x + (k as real) * m, m) == FloorMod(x, m)
  {
    var kr := k as real;
    var y := x + kr * m;
    var q := (x / m).Floor;
    assert (y / m).Floor == q + k by {
      QuotientShift(x, m, kr);
      FloorShift(x / m, k);
    }
    var qr := q as real;
    assert (y / m).Floor as real == qr + kr;
    assert FloorMod(y, m) == y - m * (qr + kr);
    assert FloorMod(x, m) == x - m * qr;
    RemainderShift(x, m, qr, kr);
    assert y - m * (qr + kr) == x - m * qr;
    assert FloorMod(y, m) == FloorMod(x, m);
    assert y == x + (k as real) * m;
    assert FloorMod(x + (k as real) * m, m) == FloorMod(x, m);
  }

  lemma RemainderShift(x: real, m: real, qr: real, kr: real)
    ensures (x + kr * m) - m * (qr + kr) == x - m * qr
  {
  }

  lemma QuotientShift(x: real, m: real, kr: real)
    requires m != 0.0
    ensures (x + kr * m) / m == x / m + kr
  {
    assert (x + kr * m) / m * m == x + kr * m;
    assert (x / m + kr) * m == x + kr * m;
  }

  lemma FloorShift(y: real, k: int)
    ensures (y + k as real).Floor == y.Floor + k
  {
  }

  /** `x ** 2` on floats. */
  function Square(x: real): real {
    x * x
  }

  /** A square is never negative, and it is zero exactly at zero. */
  lemma SquareSign(x: real)
    ensures 0.0 <= Square(x)
    ensures Square(x) == 0.0 <==> x == 0.0
  {
    if x < 0.0 {
      ProductOfNegatives(x, x, Square(x));
    } else if x > 0.0 {
      ProductOfPositives(x, x, Square(x));
    } else {
      assert Square(x) == 0.0 * 0.0;
    }
  }

  lemma ProductOfPositives(a: real, b: real, p: real)
    requires p == a * b && 0.0 < a && 0.0 < b
    ensures 0.0 < p
  {
  }

  lemma ProductOfNegatives(a: real, b: real, p: real)
    requires p == a * b && a < 0.0 && b < 0.0
    ensures 0.0 < p
  {
  }

  function Abs(x: real): real {
    if x < 0.0 then -x else x
  }

  /** Python's builtin `sum`: adds from the left, starting at 0. */
  function Sum(xs: seq<real>): real
  {
    if xs == [] then 0.0 else Sum(xs[..|xs| - 1]) + xs[|xs| - 1]
  }

  predicate AllNonNegative(xs: seq<real>) {
    forall i :: 0 <= i < |xs| ==> 0.0 <= xs[i]
  }

  predicate AllZero(xs: seq<real>) {
    forall i :: 0 <= i < |xs| ==> xs[i] == 0.0
  }

  /** A sum of non-negative terms is non-negative, and it is zero exactly when every term is. */
  lemma {:induction false} SumNonNegative(xs: seq<real>)
    requires AllNonNegative(xs)
    ensures 0.0 <= Sum(xs)
    ensures Sum(xs) == 0.0 <==> AllZero(xs)
  {
    if xs != [] {
      var init := xs[..|xs| - 1];
      assert AllNonNegative(init) by {
        forall i | 0 <= i < |init| ensures 0.0 <= init[i] {
          assert init[i] == xs[i];
        }
      }
      SumNonNegative(init);
      if Sum(xs) == 0.0 {
        forall i | 0 <= i < |xs| ensures xs[i] == 0.0 {
          if i < |xs| - 1 {
            assert init[i] == xs[i];
          }
        }
      }
      if AllZero(xs) {
        assert AllZero(init) by {
          forall i | 0 <= i < |init| ensures init[i] == 0.0 {
            assert init[i] == xs[i];
          }
        }
      }
    }
  }
}
