/** Positions in a ring. */
module Modulo {
  lemma SameQuotient(q: nat, r: nat, k: nat, s: nat, n: nat)
    requires q * n + r == k * n + s && r < n && s < n
    ensures q == k
  {
    assert (k - q) * n == k * n - q * n && (q - k) * n == q * n - k * n;
    AtLeastOnce(k - q, n);
    AtLeastOnce(q - k, n);
  }

  lemma AtLeastOnce(d: int, n: nat)
    ensures d > 0 ==> d * n >= n
  {
  }

  lemma Remainder(q: nat, r: nat, n: nat)
    requires r < n
    ensures (q * n + r) % n == r
  {
    var x := q * n + r;
    Divided(x, n);
    SameQuotient(q, r, x / n, x % n, n);
  }

  lemma Divided(x: nat, n: nat)
    requires n > 0
    ensures x == x / n * n + x % n
  {
  }

  /** Moving on by at most a ring's length lands further along, or past the end and round. */
  lemma Further(p: nat, i: nat, n: nat)
    requires 0 < n && i <= n
    ensures (p + i) % n == if p % n + i < n then p % n + i else p % n + i - n
  {
    var q, r := p / n, p % n;
    if r + i < n {
      Remainder(q, r + i, n);
      assert p + i == q * n + (r + i);
    } else {
      Remainder(q + 1, r + i - n, n);
      assert p + i == (q + 1) * n + (r + i - n);
    }
  }

  /** A counter that wraps at a multiple of the ring's length still goes round the ring evenly. */
  lemma WrapsEvenly(x: nat, wrap: nat, n: nat)
    requires 0 < n && 0 < wrap && wrap % n == 0
    ensures x % wrap % n == x % n
  {
    var k := wrap / n;
    Divided(wrap, n);
    Divided(x, wrap);
    Divided(x % wrap, n);
    var q := x / wrap * k + x % wrap / n;
    assert x / wrap * wrap == x / wrap * (k * n) == x / wrap * k * n;
    assert x == q * n + x % wrap % n;
    Remainder(q, x % wrap % n, n);
  }
}
