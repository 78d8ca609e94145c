/** The nonlinear facts the statistics rest on, each in the one form that is used. */
module Arithmetic {
  import opened Rings

  function Floor(a: nat, b: nat): (q: nat)
    requires 0 < b
    ensures a == b * q + a % b && a % b < b
  {
    a / b
  }

  lemma Sign(m: int, d: int)
    requires 0 < m
    ensures m * d > 0 <==> d > 0
    ensures m * d < 0 <==> d < 0
  {
    if 1 <= d {
      assert 1 <= m * d;
    } else if d <= -1 {
      assert m * d <= -1;
    }
  }

  lemma SignReal(m: real, d: real)
    requires 0.0 < m
    ensures m * d > 0.0 <==> d > 0.0
    ensures m * d < 0.0 <==> d < 0.0
  {
  }

  lemma MulMonotone(a: nat, b: nat, m: nat)
    requires a <= b
    ensures a * m <= b * m
  {
  }

  /** Rounding down commutes with comparing against whole numbers. */
  lemma FloorBounds(a: nat, m: nat, n: nat)
    requires 0 < m
    ensures n <= Floor(a, m) <==> m * n <= a
    ensures Floor(a, m) == n && a % m == 0 <==> m * n == a
  {
    var q := Floor(a, m);
    assert m * (q + 1 - n) == m * q + m - m * n;
    assert m * (n - q) == m * n - m * q;
    Sign(m, q + 1 - n);
    Sign(m, n - q);
    if m * n == a {
      SmallMultiple(m, n - q);
    }
  }

  lemma NestedFloor(a: nat, b: nat, c: nat)
    requires 0 < b && 0 < c
    ensures 0 < b * c && Floor(Floor(a, b), c) == Floor(a, b * c)
  {
    var q := Floor(a, b);
    var p, r, t := Floor(q, c), a % b, q % c;
    Sign(b, c);
    assert b * q == b * (c * p) + b * t;
    assert b * (c * p) == b * c * p;
    MulMonotone(t + 1, c, b);
    assert (t + 1) * b == b * t + b && c * b == b * c;
    ModUnique(a, b * c, p, b * t + r);
  }

  lemma CancelTen(a: nat, b: nat)
    requires 0 < b
    ensures Floor(10 * a, 10 * b) == Floor(a, b)
  {
    assert 10 * (b * Floor(a, b)) == 10 * b * Floor(a, b);
    ModUnique(10 * a, 10 * b, Floor(a, b), 10 * (a % b));
  }

  /** A natural division next to the real one. */
  lemma FloorIsClose(a: nat, n: nat)
    requires 0 < n
    ensures Floor(a, n) as real <= a as real / n as real < Floor(a, n) as real + 1.0
  {
    var q, r, rn := Floor(a, n), a % n, n as real;
    var x := a as real / rn;
    assert a as real == (n * q) as real + r as real;
    assert (n * q) as real == rn * q as real;
    assert x * rn == a as real;
    assert rn * (x - q as real) == r as real;
    assert rn * (q as real + 1.0 - x) == rn - r as real;
    SignReal(rn, x - q as real);
    SignReal(rn, q as real + 1.0 - x);
  }

  lemma DivideMonotone(x: real, y: real, n: real)
    requires 0.0 < n
    ensures x < y <==> x / n < y / n
  {
    var d := y / n - x / n;
    assert x / n * n == x && y / n * n == y;
    assert n * d == y - x;
    SignReal(n, d);
  }

  lemma LessOneStep(x: real, n: real)
    requires 0.0 < n
    ensures (x - n) / n == x / n - 1.0
  {
    var q := (x - n) / n;
    assert q * n == x - n && x / n * n == x;
    assert n * (q - (x / n - 1.0)) == 0.0;
    SignReal(n, q - (x / n - 1.0));
  }
}
