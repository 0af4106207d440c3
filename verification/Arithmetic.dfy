/** Multiplication and division facts that the solver does not find by itself. */
module Arithmetic {
  lemma AtLeastOneTimes(x: int, n: int)
    requires x >= 1 && n > 0
    ensures x * n >= n
  {
  }

  lemma DivMod(a: int, n: int, q: int, r: int)
    requires n > 0 && a == q * n + r && 0 <= r < n
    ensures a / n == q && a % n == r
  {
    var q', r' := a / n, a % n;
    assert a == q' * n + r' && 0 <= r' < n;
    var x, y := q - q', q' - q;
    assert x * n == q * n - q' * n && y * n == q' * n - q * n;
    if x >= 1 { AtLeastOneTimes(x, n); }
    if y >= 1 { AtLeastOneTimes(y, n); }
  }

  lemma MultiplySuccessor(n: nat, c: nat)
    ensures (n + 1) * c == n * c + c
  {
  }

  lemma ProductMonotone(a: nat, b: nat, n: nat)
    ensures a >= b ==> a * n >= b * n
  {
    if a >= b { assert a * n == b * n + (a - b) * n; }
  }

  lemma QuotientBound(q: nat, n: nat, a: nat)
    requires n > 0 && q * n <= a
    ensures q <= a / n
  {
    var k, r := a / n, a % n;
    assert a == k * n + r;
    assert (q - k) * n == q * n - k * n;
    if q > k { AtLeastOneTimes(q - k, n); }
  }
}
