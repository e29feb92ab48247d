/** Remainders of cursor positions. */
module Modulo {
  lemma ModShift(x: nat, k: nat, n: nat)
    requires 0 < n && k <= n
    ensures (x + k) % n == if x % n + k < n then x % n + k else x % n + k - n
  {
    var q := x / n;
    assert x == q * n + x % n;
    var y := x % n + k;
    if y < n {
      ModUnique(x + k, q, y, n);
    } else {
      assert x + k == (q + 1) * n + (y - n) by {
        assert (q + 1) * n == q * n + n;
      }
      if y - n < n {
        ModUnique(x + k, q + 1, y - n, n);
      }
    }
  }

  lemma ModUnique(x: nat, q: nat, r: nat, n: nat)
    requires 0 < n && r < n && x == q * n + r
    ensures x % n == r
  {
    var d := x / n - q;
    assert d * n == r - x % n by {
      assert (x / n - q) * n == (x / n) * n - q * n;
    }
    assert d >= 1 ==> d * n >= n;
    assert d <= -1 ==> d * n <= -(n as int);
  }

  /** The remainder by 2m, from the remainder of the half by m. */
  lemma ModDouble(h: nat, m: nat, n: nat)
    requires m > 0 && n == 2 * m
    ensures h % n == 2 * ((h / 2) % m) + h % 2
  {
    var q, r := (h / 2) / m, (h / 2) % m;
    Quotient(h / 2, m);
    Regroup(q, m, n);
    ModUnique(h, q, 2 * r + h % 2, n);
  }

  lemma Quotient(x: nat, m: nat)
    requires m > 0
    ensures x == (x / m) * m + x % m && x % m < m
  {
  }

  lemma Regroup(q: nat, m: nat, n: nat)
    requires n == 2 * m
    ensures q * n == 2 * (q * m)
  {
  }

  /** Two cursor positions less than a capacity apart never share a slot. */
  lemma DistinctSlots(x: nat, y: nat, n: nat)
    requires 0 < n && x < y < x + n
    ensures x % n != y % n
  {
    ModShift(x, y - x, n);
  }
}
