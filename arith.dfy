/** Facts about Euclidean division that the index arithmetic of the model needs. */
module Arith {

  /** Division and remainder are determined by any decomposition a == q * n + c with 0 <= c < n. */
  lemma DivModUnique(a: int, n: int, q: int, c: int)
    requires n > 0 && 0 <= c < n && a == q * n + c
    ensures a / n == q && a % n == c
  {
    var q', c' := a / n, a % n;
    assert a == q' * n + c';
    assert (q - q') * n == c' - c;
    if q > q' {
      MulAtLeast(q - q', n);
      assert false;
    } else if q < q' {
      MulAtLeast(q' - q, n);
      assert false;
    }
  }

  lemma MulAtLeast(k: int, n: int)
    requires k >= 1 && n > 0
    ensures k * n >= n
  {
    assert k * n == (k - 1) * n + n;
    assert (k - 1) * n >= 0;
  }

  /** Adding a multiple of the divisor does not change the remainder. */
  lemma ModAddMultiple(x: int, q: int, n: int)
    requires n > 0
    ensures (x + q * n) % n == x % n
    ensures (x + q * n) / n == x / n + q
  {
    assert x == (x / n) * n + x % n;
    assert x + q * n == (x / n + q) * n + x % n;
    DivModUnique(x + q * n, n, x / n + q, x % n);
  }

  /** Two numbers closer than the divisor with equal remainders are equal. */
  lemma CloseSameResidue(x: int, y: int, n: int)
    requires n > 0 && x <= y < x + n && x % n == y % n
    ensures x == y
  {
    assert x == (x / n) * n + x % n;
    assert y == (y / n) * n + y % n;
    assert y - x == (y / n - x / n) * n;
    if y / n - x / n >= 1 {
      MulAtLeast(y / n - x / n, n);
      assert false;
    }
    if y / n - x / n < 0 {
      assert (x / n - y / n) * n == x - y;
      MulAtLeast(x / n - y / n, n);
      assert false;
    }
  }

  /** Division by a positive number is monotone. */
  lemma DivMonotone(p: int, q: int, n: int)
    requires p <= q && n > 0
    ensures p / n <= q / n
  {
    if p / n > q / n {
      assert p >= (p / n) * n;
      MulAtLeast(p / n - q / n, n);
      assert false;
    }
  }

  /** Counting multiples: k + 1 reaches one more multiple of n than k exactly when n divides k + 1. */
  lemma DivStep(k: nat, n: int)
    requires n > 0
    ensures (k + 1) / n == k / n + (if (k + 1) % n == 0 then 1 else 0)
  {
    var q, c := k / n, k % n;
    assert k == q * n + c;
    if c == n - 1 {
      DivModUnique(k + 1, n, q + 1, 0);
    } else {
      DivModUnique(k + 1, n, q, c + 1);
    }
  }

  /** Below the divisor a number is its own remainder. */
  lemma ModSmall(x: int, n: int)
    requires 0 <= x < n
    ensures x % n == x && x / n == 0
  {
    DivModUnique(x, n, 0, x);
  }

  /** x lies offset past a multiple of n exactly when its remainder is offset. */
  lemma ModOffset(x: int, offset: int, n: int)
    requires 0 <= offset < n && offset <= x
    ensures (x - offset) % n == 0 <==> x % n == offset
  {
    var q := (x - offset) / n;
    assert x - offset == q * n + (x - offset) % n;
    if (x - offset) % n == 0 {
      DivModUnique(x, n, q, offset);
    }
    if x % n == offset {
      assert x == (x / n) * n + offset;
      DivModUnique(x - offset, n, x / n, 0);
    }
  }

  /** A remainder never exceeds a non-negative dividend. */
  lemma ModAtMost(x: int, n: int)
    requires 0 <= x && n > 0
    ensures x % n <= x
  {
    assert x == (x / n) * n + x % n;
    if x / n < 0 {
      assert x < n;
      ModSmall(x, n);
    }
  }

  /** Subtracting the divisor does not change the remainder. */
  lemma ModSub(x: int, n: int)
    requires n > 0
    ensures (x - n) % n == x % n
  {
    ModAddMultiple(x - n, 1, n);
  }

  /** Dividing two parts by the same positive number divides their sum. */
  lemma AddDiv(s1: real, s2: real, s: real, n: real)
    requires n > 0.0 && s == s1 + s2
    ensures s1 / n + s2 / n == s / n
  {
  }

  /** Two means over m items each, halved, add up to the mean over 2 * m items. */
  lemma EvenHalves(s1: real, s2: real, s: real, m: real, n: real, k: real)
    requires m > 0.0 && k > 0.0 && n == 2.0 * m && s == s1 + s2
    ensures (s1 / m) / (2.0 * k) + (s2 / m) / (2.0 * k) == (s / n) / k
  {
    var w := m * (2.0 * k);
    assert w > 0.0;
    assert (s1 / m) / (2.0 * k) == s1 / w;
    assert (s2 / m) / (2.0 * k) == s2 / w;
    assert s1 / w + s2 / w == (s1 + s2) / w;
    assert ((s1 + s2) / (2.0 * m)) / k == (s1 + s2) / w;
  }

  /** Any n consecutive numbers from e0 on contain one with remainder r. */
  lemma ResidueInWindow(e0: int, n: int, r: int) returns (e: int)
    requires n > 0 && 0 <= r < n
    ensures e0 <= e < e0 + n && e % n == r
  {
    var q := e0 / n;
    var m := q * n;
    assert e0 == m + e0 % n;
    if m + r >= e0 {
      e := m + r;
      DivModUnique(e, n, q, r);
    } else {
      e := m + n + r;
      assert m + n == (q + 1) * n;
      DivModUnique(e, n, q + 1, r);
    }
  }
}
