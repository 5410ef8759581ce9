/** Facts about products, quotients and remainders. */
module Arithmetic {
  lemma MultiplicationIsMonotone(d: int, a: int, b: int)
    requires d >= 0 && a <= b
    ensures d * a <= d * b
  {
    assert d * (b - a) >= 0;
  }

  /** The only multiple of `d` strictly between `-d` and `d` is zero. */
  lemma SmallMultipleIsZero(d: int, k: int)
    requires d >= 1
    ensures -d < d * k < d ==> k == 0
  {
    if k >= 1 {
      MultiplicationIsMonotone(d, 1, k);
    } else if k <= -1 {
      MultiplicationIsMonotone(d, k, -1);
    }
  }

  lemma DivModUnique(n: int, d: int, q: int, r: int)
    requires d >= 1 && 0 <= r < d && n == d * q + r
    ensures n / d == q && n % d == r
  {
    var q', r' := n / d, n % d;
    assert n == d * q' + r';
    assert d * (q' - q) == d * q' - d * q;
    SmallMultipleIsZero(d, q' - q);
  }
}
