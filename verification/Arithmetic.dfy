/** Facts about numbers that several components use. */
module Arithmetic {

  function Min(a: nat, b: nat): nat { if a <= b then a else b }

  lemma NoMultipleBetween(n: nat, d: int, x: nat)
    requires 0 < x < n
    ensures n * d != x
  {
    if d <= 0 {
      assert n * d <= 0;
    } else {
      assert n * d == n + n * (d - 1) && n * (d - 1) >= 0;
    }
  }

  /** Two counters less than n apart name different slots. */
  lemma ModDistinct(a: nat, b: nat, n: nat)
    requires a < b < a + n
    ensures a % n != b % n
  {
    NoMultipleBetween(n, b / n - a / n, b - a);
    assert n * (b / n - a / n) == n * (b / n) - n * (a / n);
    assert a == n * (a / n) + a % n && b == n * (b / n) + b % n;
  }
}
