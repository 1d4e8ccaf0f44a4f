/** Order facts about products and quotients of reals. */
module RealFacts {

  lemma {:induction false} FracLe(a: real, b: real, c: real, d: real)
    requires b > 0.0 && d > 0.0 && a * d <= c * b
    ensures a / b <= c / d
  {
    var x, y := a / b, c / d;
    assert x * b == a && y * d == c;
  }

  lemma {:induction false} FracLess(a: real, b: real, bound: real)
    requires b > 0.0 && a < bound * b
    ensures a / b < bound
  {
    var x := a / b;
    assert x * b == a;
  }

  lemma {:induction false} FracSign(a: real, b: real)
    requires b > 0.0
    ensures a > 0.0 <==> a / b > 0.0
  {
    var x := a / b;
    assert x * b == a;
  }

  lemma {:induction false} MulLe(x: real, y: real, f: real)
    requires x <= y && f >= 0.0
    ensures x * f <= y * f
  {
  }

  lemma {:induction false} MulLess(x: real, y: real, f: real)
    requires x < y && f > 0.0
    ensures x * f < y * f
  {
  }

  lemma {:induction false} MulMono(x: real, y: real, f: real, g: real)
    requires 0.0 <= x <= y && 0.0 <= f <= g
    ensures 0.0 <= x * f <= y * g
  {
    assert x * f <= y * f;
    assert y * f <= y * g;
  }

  /** Adding at least one to the numerator and one to the denominator of a fraction below 1. */
  lemma {:induction false} FracStepUp(n: real, n': real, d: real)
    requires d > 0.0 && n <= d && n' >= n + 1.0
    ensures n / d <= n' / (d + 1.0)
  {
    assert n * (d + 1.0) == n * d + n;
    assert (n + 1.0) * d == n * d + d;
    MulLe(n + 1.0, n', d);
    FracLe(n, d, n', d + 1.0);
  }

  lemma {:induction false} FracStepDown(n: real, n': real, d: real)
    requires d > 0.0 && 0.0 < n' <= n
    ensures n' / (d + 1.0) <= n / d
  {
    MulLe(n', n, d);
    assert n * (d + 1.0) == n * d + n;
    FracLe(n', d + 1.0, n, d);
  }

  lemma {:induction false} Scale(x: real, f: real)
    requires 0.0 <= x < 1.0 && 0.0 <= f <= 1.0
    ensures 0.0 <= x * f < 1.0
  {
    MulMono(x, x, f, 1.0);
  }
}
