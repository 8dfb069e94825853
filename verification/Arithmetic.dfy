/** Division by a variable, for the heights of groups of blocks and the digits of stored
    integers. */
module Arithmetic {

  lemma MulMonotone(a: int, b: int, d: nat)
    requires a <= b
    ensures a * d <= b * d
  {
    assert (b - a) * d >= 0;
  }

  /** There is one way to divide with a remainder. */
  lemma DivisionUnique(v: int, d: nat, q: int, r: nat)
    requires r < d && v == q * d + r
    ensures v / d == q && v % d == r
  {
    var q' := v / d;
    assert q' * d <= v < q' * d + d;
    if q' < q {
      MulMonotone(q' + 1, q, d);
    } else if q < q' {
      MulMonotone(q + 1, q', d);
    }
  }

  /** Dividing twice is dividing by the product. */
  lemma DivideTwice(v: nat, a: nat, b: nat)
    requires a > 0 && b > 0
    ensures a * b > 0 && v / a / b == v / (a * b)
  {
    var q, r := v / a, v % a;
    var q', r' := q / b, q % b;
    assert v == q * a + r && q == q' * b + r';
    assert v == q' * (a * b) + (r' * a + r) by {
      assert q * a == (q' * b + r') * a == q' * (a * b) + r' * a;
    }
    assert r' * a + r < a * b by {
      MulMonotone(r' + 1, b, a);
      assert (r' + 1) * a == r' * a + a;
    }
    assert r' * a >= 0;
    DivisionUnique(v, a * b, q', r' * a + r);
  }
}
