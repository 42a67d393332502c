/** Quotient and remainder are unique. */
module Division {
  lemma Residue(x: int, m: int, q: int, r: int)
    requires m > 0 && 0 <= r < m && x == m * q + r
    ensures x / m == q && x % m == r
  {
    var q', r' := x / m, x % m;
    Distribute(m, q', q);
    if q' > q {
      AtLeast(m, q' - q);
    } else if q' < q {
      Distribute(m, q, q');
      AtLeast(m, q - q');
    }
  }

  lemma Distribute(m: int, a: int, b: int)
    ensures m * (a - b) == m * a - m * b
  {
  }

  lemma AtLeast(m: int, k: int)
    requires m > 0 && k >= 1
    ensures m * k >= m
  {
  }
}
