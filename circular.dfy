/** Facts about the Euclidean remainder used for circular bin indices. */
module Circular {

  lemma ModInRange(x: int, n: int)
    requires 0 <= x < n
    ensures x % n == x
  {
  }

  lemma {:induction false} MulAtLeast(k: int, n: int)
    requires k >= 1 && n > 0
    ensures k * n >= n
    decreases k
  {
    if k > 1 {
      MulAtLeast(k - 1, n);
      assert k * n == (k - 1) * n + n;
    }
  }

  /** The remainder is determined by any quotient/remainder decomposition. */
  lemma ModUnique(x: int, n: int, q: int, r: int)
    requires n > 0 && 0 <= r < n && x == q * n + r
    ensures x % n == r
  {
    var q', r' := x / n, x % n;
    assert x == q' * n + r';
    assert (q - q') * n == r' - r;
    if q > q' {
      MulAtLeast(q - q', n);
    } else if q < q' {
      MulAtLeast(q' - q, n);
    }
  }

  /** A full turn brings an index back to itself. */
  lemma ModPeriodic(c: int, n: int)
    requires n > 0
    ensures (n + c) % n == c % n
  {
    var q, r := c / n, c % n;
    assert c == q * n + r;
    assert n + c == (q + 1) * n + r;
    ModUnique(n + c, n, q + 1, r);
  }
}
