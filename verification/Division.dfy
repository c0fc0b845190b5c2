/** Division by a variable, which the verifier does not know by itself. */
module Division {
  lemma Gap(p: int, q: int, n: nat)
    requires p < q
    ensures q * n >= p * n + n
  {
    var d: nat := q - p - 1;
    assert q == p + 1 + d;
    assert q * n == p * n + n + d * n;
  }

  /** A division is determined by its quotient and remainder. */
  lemma Quotient(a: int, n: nat, q: int, r: int)
    requires n > 0 && a == q * n + r && 0 <= r < n
    ensures a / n == q && a % n == r
  {
    var p := a / n;
    assert a == p * n + a % n;
    if p != q {
      Gap(if p < q then p else q, if p < q then q else p, n);
    }
  }
}
