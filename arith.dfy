/** Order facts about real division and multiplication that the solver does not find on its own. */
module Arith {

  /** Dividing by a positive number keeps an order: `a <= b` gives `a / c <= b / c`. */
  lemma QuotientBelow(a: real, b: real, c: real)
    requires c > 0.0 && a <= b
    ensures a / c <= b / c
  {
    assert b / c - a / c == (b - a) / c;
    assert (b - a) / c * c == b - a;
  }

  /** Multiplying by a non-negative number keeps an order: `a <= b` gives `a * c <= b * c`. */
  lemma ProductBelow(a: real, b: real, c: real)
    requires c >= 0.0 && a <= b
    ensures a * c <= b * c
  {
    assert b * c - a * c == (b - a) * c;
  }

  /** Multiplying by a non-negative integer keeps an order. */
  lemma MulMonotone(a: int, b: int, c: int)
    requires a <= b && c >= 0
    ensures a * c <= b * c
  {
    assert b * c - a * c == (b - a) * c;
  }

  /** Integer division gives the quotient of any division with a remainder in [0, d). */
  lemma DivIsQuotient(a: int, d: int, q: int, r: int)
    requires d > 0 && 0 <= r < d && a == q * d + r
    ensures a / d == q
  {
    var q' := a / d;
    assert a == q' * d + a % d;
    if q' < q {
      assert (q' + 1) * d == q' * d + d;
      MulMonotone(q' + 1, q, d);
    } else if q' > q {
      assert (q + 1) * d == q * d + d;
      MulMonotone(q + 1, q', d);
    }
  }

  /** A quotient is below `q` when the dividend is below `q` times the divisor. */
  lemma DivBelow(a: int, d: int, q: int)
    requires d > 0 && 0 <= a < q * d
    ensures a / d < q
  {
    assert a == (a / d) * d + a % d;
    if a / d >= q {
      MulMonotone(q, a / d, d);
    }
  }

  /** The quotient of a non-negative integer by a positive one is non-negative. */
  lemma DivNonNegative(a: int, d: int)
    requires a >= 0 && d > 0
    ensures a / d >= 0
  {
    assert a == (a / d) * d + a % d;
    if a / d < 0 {
      MulMonotone(a / d, -1, d);
    }
  }
}
