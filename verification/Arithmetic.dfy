/**
 Products, quotients and remainders of natural numbers.
 */
module Arithmetic {
  lemma DivIs(a: nat, q: nat, r: nat, n: nat)
    requires n > 0 && a == q * n + r && r < n
    ensures a / n == q && a % n == r
  {
    var q', r' := a / n, a % n;
    assert a == q' * n + r' by { assert a == n * q' + r'; }
    if q < q' {
      assert (q' - q) * n == q' * n - q * n;
      AtLeastOnce(q' - q, n);
    } else if q' < q {
      assert (q - q') * n == q * n - q' * n;
      AtLeastOnce(q - q', n);
    }
  }

  lemma AtLeastOnce(a: nat, n: nat)
    requires a > 0
    ensures a * n >= n
  {
  }

  lemma MulMonotone(a: nat, b: nat, n: nat)
    requires a <= b
    ensures a * n <= b * n
  {
  }

  lemma Euclid(a: nat, n: nat)
    requires n > 0
    ensures a == (a / n) * n + a % n && a % n < n
  {
  }

  lemma Distribute(a: int, b: int, c: int)
    ensures (a + b) * c == a * c + b * c
  {
  }

  lemma Swap(a: int, b: int, c: int)
    ensures (a * b) * c == (a * c) * b
  {
  }

  lemma ModAround(a: nat, n: nat)
    requires n > 0
    ensures (a + n) % n == a % n
  {
    var q, r := a / n, a % n;
    assert a == q * n + r by { assert a == n * q + r; }
    assert (q + 1) * n == q * n + n;
    DivIs(a + n, q + 1, r, n);
  }

  /** Less than n apart, different numbers have different remainders. */
  lemma ModDiffers(a: nat, k: nat, n: nat)
    requires 0 < k < n
    ensures (a + k) % n != a % n
  {
    var q, r := a / n, a % n;
    assert a == q * n + r by { assert a == n * q + r; }
    if r + k < n {
      DivIs(a + k, q, r + k, n);
    } else {
      assert (q + 1) * n == q * n + n;
      DivIs(a + k, q + 1, r + k - n, n);
    }
  }
}
