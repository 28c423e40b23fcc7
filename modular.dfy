/** Facts about Dafny's `%` on non-negative operands that the buffer and tick proofs use. */
module Modular {

  /** Division with remainder is unique. */
  lemma ModUnique(x: int, m: int, q: int, r: int)
    requires m > 0 && 0 <= r < m && x == m * q + r
    ensures x % m == r && x / m == q
  {
    var q', r' := x / m, x % m;
    assert m * (q - q') == r' - r;
    MulBound(m, q - q');
  }

  lemma MulBound(m: int, d: int)
    requires m > 0 && -m < m * d < m
    ensures d == 0
  {
    if d >= 1 {
      MulAtLeast(m, d);
    } else if d <= -1 {
      MulAtLeast(m, -d);
    }
  }

  lemma MulAtLeast(m: int, d: int)
    requires m > 0 && d >= 1
    ensures m * d >= m
  {
  }

  /** Adding one commutes with reducing modulo m. */
  lemma ModSucc(x: nat, m: nat)
    requires m > 0
    ensures (x % m + 1) % m == (x + 1) % m
  {
    var q, r := x / m, x % m;
    if r + 1 < m {
      ModUnique(x + 1, m, q, r + 1);
      ModUnique(r + 1, m, 0, r + 1);
    } else {
      ModUnique(x + 1, m, q + 1, 0);
      ModUnique(r + 1, m, 1, 0);
    }
  }

  /** Reducing the left summand first does not change the sum's remainder. */
  lemma ModAddMod(a: nat, b: nat, m: nat)
    requires m > 0
    ensures (a % m + b) % m == (a + b) % m
  {
    var q, r := a / m, a % m;
    var q2, r2 := (r + b) / m, (r + b) % m;
    assert a + b == m * (q + q2) + r2;
    ModUnique(a + b, m, q + q2, r2);
  }

  /** A value in [m, 2m) wraps once. */
  lemma ModWrapOnce(x: int, m: int)
    requires m > 0 && m <= x < 2 * m
    ensures x % m == x - m
  {
    ModUnique(x, m, 1, x - m);
  }

  /** A value in [0, m) is its own remainder. */
  lemma ModBelow(x: int, m: int)
    requires m > 0 && 0 <= x < m
    ensures x % m == x
  {
    ModUnique(x, m, 0, x);
  }
}
