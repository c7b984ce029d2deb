/** Division with remainder. */
module Arithmetic {

  lemma ProductAtLeast(n: nat, d: nat)
    requires d >= 1
    ensures n * d >= n
  {
    assert n * d == n + n * (d - 1);
  }

  /** Division with remainder is unique. */
  lemma {:induction false} ModIs(x: nat, n: nat, q: nat, r: nat)
    requires x == n * q + r && r < n
    ensures x % n == r
  {
    var q', r' := x / n, x % n;
    assert x == n * q' + r';
    if q > q' {
      ProductAtLeast(n, q - q');
      assert false;
    } else if q' > q {
      ProductAtLeast(n, q' - q);
      assert false;
    }
  }

  lemma DivMod(x: nat, d: nat)
    requires d > 0
    ensures x == d * (x / d) + x % d && x % d < d && x / d >= 0
  {
  }

  lemma TwiceIsEven(n: nat)
    ensures 2 * n % 2 == 0 && 2 * n / 2 == n
  {
  }

  lemma Doubled(n: nat, q: nat)
    ensures 2 * n * q == n * (2 * q) && n * (2 * q + 1) == n * (2 * q) + n
  {
  }

  /** Rounding down to a multiple of `d`. */
  lemma {:induction false} RoundDown(q: nat, r: nat, d: nat)
    requires r < d
    ensures (d * q + r) / d * d == d * q && (d * q + r) % d == r
  {
    ModIs(d * q + r, d, q, r);
  }
}
