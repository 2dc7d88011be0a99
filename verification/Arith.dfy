/** Division facts with a variable modulus. */
module Arith {

  lemma MulAtLeast(k: int, n: int)
    requires k >= 1 && n >= 1
    ensures k * n >= n
  {
    assert k * n == (k - 1) * n + n;
    assert (k - 1) * n >= 0;
  }

  lemma SmallMultipleIsZero(k: int, n: int)
    requires n >= 1 && -n < k * n < n
    ensures k == 0
  {
    if k >= 1 {
      MulAtLeast(k, n);
    } else if k <= -1 {
      assert (-k) * n == -(k * n);
      MulAtLeast(-k, n);
    }
  }

  lemma DivMod(x: int, n: int)
    requires n >= 1
    ensures x == (x / n) * n + x % n && 0 <= x % n < n
  {
  }

  lemma Factor(a: int, b: int, n: int)
    ensures (a - b) * n == a * n - b * n
  {
  }

  /** Quotient and remainder are unique. */
  lemma ModOf(x: int, n: int, q: int, r: int)
    requires n >= 1 && x == q * n + r && 0 <= r < n
    ensures x % n == r && x / n == q
  {
    var q' := x / n;
    DivMod(x, n);
    Factor(q, q', n);
    SmallMultipleIsZero(q - q', n);
  }

  lemma ModNext(k: int, n: int)
    requires n >= 1
    ensures (k % n + 1) % n == (k + 1) % n
  {
    var q, r := k / n, k % n;
    DivMod(k, n);
    if r + 1 < n {
      ModOf(k + 1, n, q, r + 1);
      ModOf(r + 1, n, 0, r + 1);
    } else {
      assert (q + 1) * n == q * n + n;
      ModOf(k + 1, n, q + 1, 0);
      ModOf(r + 1, n, 1, 0);
    }
  }

  /** Two numbers less than k apart with the same remainder are equal. */
  lemma SameResidueClose(m: int, n: int, k: int)
    requires k >= 1 && -k < m - n < k && m % k == n % k
    ensures m == n
  {
    DivMod(m, k);
    DivMod(n, k);
    Factor(m / k, n / k, k);
    SmallMultipleIsZero(m / k - n / k, k);
  }

  /** Among k numbers in a row, one has remainder i. */
  lemma CycleHits(from: int, k: int, i: int) returns (n: int)
    requires 0 <= i < k
    ensures from <= n < from + k && n % k == i
  {
    var q, r := from / k, from % k;
    DivMod(from, k);
    if i >= r {
      n := from + (i - r);
      ModOf(n, k, q, i);
    } else {
      n := from + (i - r) + k;
      assert (q + 1) * k == q * k + k;
      ModOf(n, k, q + 1, i);
    }
  }

  /** Counting up by one and starting over at k is taking the remainder. */
  lemma NextRemainder(n: int, k: int)
    requires k >= 1
    ensures n % k == if (n - 1) % k + 1 == k then 0 else (n - 1) % k + 1
  {
    var q, r := (n - 1) / k, (n - 1) % k;
    DivMod(n - 1, k);
    if r + 1 == k {
      assert (q + 1) * k == q * k + k;
      ModOf(n, k, q + 1, 0);
    } else {
      ModOf(n, k, q, r + 1);
    }
  }
}
