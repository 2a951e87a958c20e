// Division facts the solver needs spelled out when the divisor is not a constant.
module Arith {

  lemma MulGap(d: nat, x: nat, y: nat)
    requires x > y
    ensures d * x >= d * y + d
  {
    assert d * x == d * y + d * (x - y);
    assert d * (x - y) == d + d * (x - y - 1);
  }

  lemma DivModUnique(v: nat, d: nat, q: nat, r: nat)
    requires d > 0 && v == d * q + r && r < d
    ensures v / d == q && v % d == r
  {
    var q', r' := v / d, v % d;
    assert v == d * q' + r';
    if q > q' {
      MulGap(d, q, q');
    } else if q < q' {
      MulGap(d, q', q);
    }
  }

  lemma DivHalf(v: nat, p: nat)
    requires p >= 1
    ensures v / (2 * p) == v / p / 2
  {
    var q, r := v / p / 2, v / p % 2;
    assert v / p == 2 * q + r;
    assert v == p * (2 * q + r) + v % p;
    assert p * (2 * q + r) == (2 * p) * q + p * r;
    assert p * r + v % p < 2 * p;
    DivModUnique(v, 2 * p, q, p * r + v % p);
  }
}
