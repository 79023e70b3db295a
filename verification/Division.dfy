/** Quotients, remainders and powers of two. */
module Division {
  lemma MulGap(a: int, b: int, d: nat)
    ensures a < b ==> a * d + d <= b * d
  {
    if a < b {
      var k: nat := b - a - 1;
      MulParts(a, 1 + k, d);
      MulParts(1, k, d);
    }
  }

  lemma MulParts(x: int, y: int, d: nat)
    ensures (x + y) * d == x * d + y * d && (y >= 0 ==> y * d >= 0)
  {
  }

  lemma DivModUnique(n: int, d: int, q: int, r: int)
    requires 0 < d && 0 <= r < d && n == q * d + r
    ensures n / d == q && n % d == r
  {
    assert n == (n / d) * d + n % d;
    MulGap(n / d, q, d);
    MulGap(q, n / d, d);
  }

  lemma DivDiv(n: nat, c: nat, d: nat)
    requires c > 0 && d > 0
    ensures n / c / d == n / (c * d)
  {
    var q, r, t := n / c / d, n / c % d, n % c;
    assert n == (q * d + r) * c + t == q * (c * d) + (r * c + t);
    MulGap(r, d, c);
    DivModUnique(n, c * d, q, r * c + t);
  }

  function Pow2(k: nat): (p: nat)
    ensures p > 0
  {
    if k == 0 then 1 else 2 * Pow2(k - 1)
  }
}
