/** Arithmetic the other modules share: products, remainders and powers. */
module Arith {

  /** The number of 64-bit nonces. */
  const NONCES: nat := 0x1_0000_0000_0000_0000

  lemma {:induction false} MulAtLeast(d: nat, k: nat)
    requires 1 <= k
    ensures d * k >= d
  {
    if k > 1 {
      MulAtLeast(d, k - 1);
      assert d * k == d * (k - 1) + d;
    }
  }

  lemma MulMonotone(a: nat, b: nat, c: nat)
    requires a <= b
    ensures a * c <= b * c
  {
    assert b * c == a * c + (b - a) * c;
  }

  lemma ModUnique(n: int, d: int, q: int, r: int)
    requires 0 < d && 0 <= r < d && n == d * q + r
    ensures n % d == r && n / d == q
  {
    var q', r' := n / d, n % d;
    Distribute(d, q, q');
    Distribute(d, q', q);
    if q > q' {
      MulAtLeast(d, q - q');
    } else if q < q' {
      MulAtLeast(d, q' - q);
    }
  }

  lemma Distribute(d: int, a: int, b: int)
    ensures d * (a - b) == d * a - d * b
    ensures d * (a + b) == d * a + d * b
  {
  }

  lemma ModSubtract(n: nat, d: nat)
    requires 0 < d <= n
    ensures (n - d) % d == n % d && (n - d) / d == n / d - 1
  {
    Distribute(d, n / d, 1);
    ModUnique(n - d, d, n / d - 1, n % d);
  }

  lemma ModAdd(x: nat, c: nat, d: nat)
    requires 0 < d
    ensures (x + c) % d == (x % d + c) % d
  {
    var q, y := x / d, x % d + c;
    Distribute(d, q, y / d);
    ModUnique(x + c, d, q + y / d, y % d);
  }
}
