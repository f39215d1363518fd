/** Division, remainder and mixed-radix facts used by the index computations. */
module Arithmetic {

  lemma MulMonotone(a: int, b: int, c: int)
    requires a <= b && 0 <= c
    ensures a * c <= b * c
  {
  }

  lemma TimesNext(n: int, d: int)
    ensures (n + 1) * d == n * d + d
  {
  }

  lemma DivModUnique(x: int, d: int, q: int, r: int)
    requires d > 0 && 0 <= r < d && x == q * d + r
    ensures x / d == q && x % d == r
  {
    var q' := x / d;
    assert x == d * q' + x % d;
    if q < q' {
      MulMonotone(q + 1, q', d);
    } else if q' < q {
      MulMonotone(q' + 1, q, d);
    }
  }

  /** Splitting by `a * b` is splitting by `a` and the quotient by `b`. */
  lemma SplitTwice(x: nat, a: nat, b: nat)
    requires a > 0 && b > 0
    ensures a * b > 0
    ensures x / (a * b) == (x / a) / b
    ensures x % (a * b) == ((x / a) % b) * a + x % a
  {
    var y := x / a;
    var q, r, s := y / b, y % b, x % a;
    MulMonotone(1, b, a);
    assert y == b * q + r && x == a * y + s;
    assert a * (b * q + r) == q * (a * b) + r * a;
    MulMonotone(r + 1, b, a);
    assert (r + 1) * a == r * a + a;
    assert x == q * (a * b) + (r * a + s);
    assert 0 <= r * a by { MulMonotone(0, r, a); }
    DivModUnique(x, a * b, q, r * a + s);
  }

  /** The mixed-radix number with high digit `q` and low digit `r` stays below the product. */
  lemma DigitsBelow(q: nat, r: nat, n: nat, d: nat)
    requires q < n && r < d
    ensures q * d + r < n * d
    ensures d > 0 && (q * d + r) / d == q && (q * d + r) % d == r
  {
    MulMonotone(q + 1, n, d);
    assert (q + 1) * d == q * d + d;
    DivModUnique(q * d + r, d, q, r);
  }

  /** The `q`-th of `n` blocks ends within them. */
  lemma LastBlock(q: nat, n: nat, size: nat)
    requires q < n
    ensures q * size + size <= n * size
  {
    TimesNext(q, size);
    MulMonotone(q + 1, n, size);
  }

  lemma DivBelow(x: nat, n: nat, d: nat)
    requires x < n * d && d > 0
    ensures x / d < n
  {
    assert x == d * (x / d) + x % d;
    if x / d >= n {
      MulMonotone(n, x / d, d);
    }
  }

  function CeilDiv(x: nat, d: nat): (r: nat)
    requires d > 0
  {
    (x + d - 1) / d
  }

  lemma CeilDivCovers(x: nat, d: nat)
    requires d > 0
    ensures x <= CeilDiv(x, d) * d < x + d
  {
    var c := CeilDiv(x, d);
    assert x + d - 1 == d * c + (x + d - 1) % d;
  }

  /** Counting up by one passes a multiple of `d` exactly when the new number is one. */
  lemma DivStep(x: nat, d: nat)
    requires d > 0
    ensures (x + 1) / d == x / d + if (x + 1) % d == 0 then 1 else 0
  {
    var q, r := x / d, x % d;
    assert x == d * q + r;
    if r + 1 == d {
      DivModUnique(x + 1, d, q + 1, 0);
    } else {
      DivModUnique(x + 1, d, q, r + 1);
    }
  }

  lemma ModSmall(x: nat, d: nat)
    requires x < d
    ensures x % d == x
  {
    DivModUnique(x, d, 0, x);
  }

  /** Taking the remainder before adding changes nothing. */
  lemma ModOfSum(n: nat, m: nat, d: nat)
    requires d > 0
    ensures (n % d + m) % d == (n + m) % d
  {
    var q, q', r := n / d, (n % d + m) / d, (n % d + m) % d;
    assert n == d * q + n % d && n % d + m == d * q' + r;
    assert (q + q') * d == d * q + d * q';
    DivModUnique(n + m, d, q + q', r);
  }

  lemma DividesThrough(a: nat, b: nat, c: nat)
    requires a > 0 && b > 0 && b % a == 0 && c % b == 0
    ensures c % a == 0
  {
    var m, k := b / a, c / b;
    assert b == a * m && c == b * k;
    assert c == (k * m) * a;
    DivModUnique(c, a, k * m, 0);
  }

  lemma SumUnits(a: nat, b: nat, d: nat)
    requires d > 0 && a % d == 0
    ensures (a + b) % d == b % d
  {
    ModOfSum(a, b, d);
  }

  lemma DivMonotone(x: nat, y: nat, d: nat)
    requires x <= y && d > 0
    ensures x / d <= y / d
  {
    assert x == d * (x / d) + x % d && y == d * (y / d) + y % d;
    if x / d > y / d { MulMonotone(y / d + 1, x / d, d); }
  }

  /** The two digits of a number below `n * a`, the low one below `n`. */
  function Split2(x: nat, n: nat, a: nat): (r: (nat, nat))
    requires x < n * a
    ensures r.0 < a && r.1 < n && r.0 * n + r.1 == x
  {
    assert n > 0;
    DivBelow(x, a, n);
    assert x == n * (x / n) + x % n;
    (x / n, x % n)
  }
}
