/** Facts about products and quotients of reals, kept apart so that each proof sees few of them. */
module RealArithmetic {

  lemma ProductOrder(x: real, y: real, d: real)
    requires x <= y && d >= 0.0
    ensures x * d <= y * d
  {
  }

  lemma ProductStrict(x: real, y: real, d: real)
    requires x < y && d > 0.0
    ensures x * d < y * d
  {
  }

  lemma Distributes(x: real, y: real, d: real)
    ensures (x + y) * d == x * d + y * d
  {
  }

  lemma ScaledProduct(p: real, x: real, c: real)
    ensures c * (p * x) == (c * p) * x
  {
  }

  lemma QuotientOf(p: real, x: real, n: real)
    requires p > 0.0 && p * x == n
    ensures x == n / p
  {
  }

  /** The quotient as a name of its own, with what multiplying back gives. */
  lemma Quotient(n: real, d: real) returns (q: real)
    requires d > 0.0
    ensures q == n / d && q * d == n
    ensures n >= 0.0 <==> q >= 0.0
  {
    q := n / d;
  }

  lemma QuotientSum(a: real, b: real, d: real)
    requires d > 0.0
    ensures (a + b) / d == a / d + b / d
    ensures d / d == 1.0
  {
  }

  lemma QuotientBounds(n: real, d: real, lo: real, hi: real)
    requires d > 0.0 && lo * d <= n <= hi * d
    ensures lo <= n / d <= hi
  {
    var r := n / d;
    assert r * d == n;
    if r < lo {
      ProductStrict(r, lo, d);
    } else if r > hi {
      ProductStrict(hi, r, d);
    }
  }

  lemma Mediant(a: real, b: real, c: real, d: real)
    requires b > 0.0 && d > 0.0 && a / b <= c / d
    ensures a / b <= (a + c) / (b + d) <= c / d
  {
    var p, q := a / b, c / d;
    assert a == p * b && c == q * d;
    assert p * (b + d) <= a + c <= q * (b + d);
    QuotientBounds(a + c, b + d, p, q);
  }
}
