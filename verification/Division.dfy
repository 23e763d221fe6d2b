/** Division with remainder by a positive number that need not be a constant, and powers of 64. */
module Division {

  lemma {:induction false} AtLeastOnce(m: int, d: int)
    requires m > 0 && d >= 1
    ensures m * d >= m
    decreases d
  {}

  lemma {:induction false} OneDivision(m: int, k: int, r: int, q: int, s: int)
    requires m * k + r == m * q + s && 0 <= r < m && 0 <= s < m
    ensures k == q && r == s
  {
    assert m * (k - q) == s - r && m * (q - k) == r - s;
    if k > q { AtLeastOnce(m, k - q); }
    if q > k { AtLeastOnce(m, q - k); }
  }

  /** Quotient and remainder are determined by the equation between them. */
  lemma {:induction false} LowPart(y: int, m: int, k: int, r: int)
    requires m > 0 && y == m * k + r && 0 <= r < m
    ensures y / m == k && y % m == r
  {
    OneDivision(m, k, r, y / m, y % m);
  }

  lemma {:induction false} ModStep(n: nat, m: nat)
    requires m > 0
    ensures (n + 1) % m == if n % m + 1 == m then 0 else n % m + 1
  {
    var q, r := n / m, n % m;
    assert n == m * q + r;
    if r + 1 == m {
      assert n + 1 == m * (q + 1) + 0;
      LowPart(n + 1, m, q + 1, 0);
    } else {
      LowPart(n + 1, m, q, r + 1);
    }
  }

  // ----- groups of six bits

  function Pow64(n: nat): (p: nat)
    ensures p > 0
  {
    if n == 0 then 1 else 64 * Pow64(n - 1)
  }

  lemma {:induction false} Pow64Values()
    ensures Pow64(0) == 1 && Pow64(1) == 64 && Pow64(2) == 4096 && Pow64(3) == 262144 && Pow64(4) == 16777216
  {}
}
