/** Facts about real products and quotients. */
module Reals {

  function Min(a: real, b: real): real { if b < a then b else a }

  function Max(a: real, b: real): real { if a < b then b else a }

  /** `sums` adds up `values` one by one. */
  ghost predicate RunningSums(values: seq<real>, sums: seq<real>) {
    && |sums| == |values| + 1 && sums[0] == 0.0
    && forall i {:trigger values[i]} :: 0 <= i < |values| ==> sums[i + 1] == sums[i] + values[i]
  }

  lemma ProductMonotone(a: real, b: real, c: real, d: real)
    requires 0.0 <= a <= c && 0.0 <= b <= d
    ensures 0.0 <= a * b <= c * d
  {
    assert a * b <= c * b;
    assert c * b <= c * d;
  }

  lemma ProductStrict(a: real, b: real, c: real, d: real)
    requires 0.0 <= a <= c && 0.0 <= b <= d && 0.0 < c && 0.0 < d
    requires a < c || b < d
    ensures a * b < c * d
  {
    if a < c {
      assert a * b <= a * d;
      assert a * d < c * d;
    } else {
      assert a * b < a * d;
    }
  }

  lemma QuotientRange(n: real, d: real)
    requires 0.0 <= n <= d && 0.0 < d
    ensures 0.0 <= n / d <= 1.0
    ensures n / d == 1.0 <==> n == d
  {
    assert n / d == n * (1.0 / d);
    assert (n / d) * d == n;
    if n < d { ProductStrict(n, 1.0 / d, d, 1.0 / d); }
    assert d / d == 1.0;
  }

  lemma QuotientMonotone(a: real, b: real, n: real)
    requires a <= b && n > 0.0
    ensures a / n <= b / n
    ensures a < b ==> a / n < b / n
  {
  }

  lemma PositiveFactor(a: real, b: real)
    requires b > 0.0 && a * b > 0.0
    ensures a > 0.0
  {
  }

  lemma DivideLarger(m: real, a: real, b: real)
    requires m > 0.0 && 0.0 < a < b
    ensures 0.0 <= m / b < m / a
  {
    var x, y := m / a, m / b;
    assert x * a == m && y * b == m;
    PositiveFactor(x, a);
    assert (x - y) * b == x * (b - a);
    ProductStrict(0.0, 0.0, x, b - a);
    PositiveFactor(x - y, b);
  }
}
