/** Division facts that the solver does not find by itself. */
module Arithmetic {
  lemma DivMod(x: nat, q: nat, n: nat, r: nat)
    requires n > 0 && x == q * n + r && r < n
    ensures x / n == q && x % n == r
  {
    var d := x / n - q;
    assert x == (x / n) * n + x % n;
    assert d * n == r - x % n by { assert d * n == (x / n) * n - q * n; }
    Multiples(d, n);
  }

  lemma Multiples(d: int, n: int)
    requires n > 0
    ensures (d >= 1 ==> d * n >= n) && (d <= -1 ==> d * n <= -n)
  {}

  lemma DivAtLeast(x: nat, d: nat, y: nat)
    requires d > 0
    ensures x / d >= y <==> x >= y * d
  {
    var q, r := x / d, x % d;
    assert x == q * d + r;
    if q >= y {
      assert q * d >= y * d by { Scale(q - y, d); assert (q - y) * d == q * d - y * d; }
    } else {
      assert (q + 1) * d <= y * d by { Scale(y - q - 1, d); assert (y - q - 1) * d == y * d - (q + 1) * d; }
      assert (q + 1) * d == q * d + d;
    }
  }

  lemma Scale(a: nat, d: nat)
    ensures a * d >= 0
  {}
}
