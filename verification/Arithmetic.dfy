/** Division with remainder. */
module Arithmetic {

  /** A nonzero multiple of `n` is at least `n` away from zero. */
  lemma MulSign(e: int, n: nat)
    ensures e >= 1 ==> e * n >= n
    ensures e <= -1 ==> e * n + n <= 0
  {
  }

  lemma DivUnique(a: int, n: nat, q: int, m: nat)
    requires m < n && a == q * n + m
    ensures a / n == q && a % n == m
  {
    var e := a / n - q;
    assert e * n == m - a % n;
    MulSign(e, n);
  }
}
