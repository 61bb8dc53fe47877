/** Laws of products, quotients and powers, one at a time. */
module Arithmetic {

  lemma MulAssociates(a: int, b: int, c: int)
    ensures a * (b * c) == a * b * c
  {
  }

  lemma MulDistributes(a: int, b: int, c: int)
    ensures (a + b) * c == a * c + b * c && (a - b) * c == a * c - b * c
  {
  }

  lemma MulNegates(a: int, b: int)
    ensures (-a) * b == -(a * b)
  {
  }

  lemma MulSigns(a: int, b: int)
    requires b >= 1
    ensures a >= 1 ==> a * b >= 1
    ensures a >= 0 ==> a * b >= 0
  {
  }

  lemma MulMono(a: int, b: int, m: int)
    requires m >= 0 && a <= b
    ensures m * a <= m * b
  {
  }

  lemma MulForm(a: int, b: int, c: int)
    ensures a * (b + c) == a * b + a * c && a * (b * c) == a * b * c && (a + b) * c == a * c + b * c
  {
  }

  lemma DivForm(x: int, m: int)
    requires m >= 1
    ensures x == m * (x / m) + x % m && 0 <= x % m < m
  {
  }

  /** Quotient and rest are the only pair of their form. */
  lemma DivUnique(x: int, m: int, q: int, r: int)
    requires m >= 1 && 0 <= r < m && x == m * q + r
    ensures x / m == q && x % m == r
  {
    var p := x / m;
    assert x == m * p + x % m;
    if p < q {
      MulForm(m, p, 1);
      MulMono(p + 1, q, m);
    } else if p > q {
      MulForm(m, q, 1);
      MulMono(q + 1, p, m);
    }
  }

  /** Adding a multiple of the modulus does not show. */
  lemma ModShift(x: int, m: int, q: int)
    requires m >= 1
    ensures (x + m * q) % m == x % m
  {
    DivForm(x, m);
    MulForm(m, x / m, q);
    DivUnique(x + m * q, m, x / m + q, x % m);
  }

  function Power(b: nat, n: nat): (r: nat)
    requires b >= 1
    ensures r >= 1
  {
    if n == 0 then 1 else MulSigns(b, Power(b, n - 1)); b * Power(b, n - 1)
  }

  lemma {:induction false} PowerSum(b: nat, m: nat, n: nat)
    requires b >= 1
    ensures Power(b, m + n) == Power(b, m) * Power(b, n)
  {
    if m > 0 {
      PowerSum(b, m - 1, n);
      MulAssociates(b, Power(b, m - 1), Power(b, n));
    }
  }
}
