/** Machine words as natural numbers: bits, shifts and disjunction. */
module Words {
  import opened Modulo

  function TestBit(w: nat, k: nat): bool {
    if k == 0 then w % 2 == 1 else TestBit(w / 2, k - 1)
  }

  lemma {:induction false} NoBits(k: nat)
    ensures !TestBit(0, k)
  {
    if k > 0 {
      NoBits(k - 1);
    }
  }

  function And(a: nat, b: nat): nat
    decreases a
  {
    if a == 0 || b == 0 then 0 else 2 * And(a / 2, b / 2) + if a % 2 == 1 && b % 2 == 1 then 1 else 0
  }

  function Or(a: nat, b: nat): nat {
    if a == 0 then b
    else if b == 0 then a
    else 2 * Or(a / 2, b / 2) + if a % 2 == 1 || b % 2 == 1 then 1 else 0
  }

  function Shr(w: nat, s: nat): nat {
    if s == 0 then w else Shr(w / 2, s - 1)
  }

  lemma Halves(h: nat, bit: nat)
    requires bit < 2
    ensures (2 * h + bit) / 2 == h && (2 * h + bit) % 2 == bit
  {
  }

  lemma {:induction false} OrBit(a: nat, b: nat, k: nat)
    ensures TestBit(Or(a, b), k) == (TestBit(a, k) || TestBit(b, k))
    decreases k
  {
    if a == 0 || b == 0 {
      NoBits(k);
    } else if k > 0 {
      OrBit(a / 2, b / 2, k - 1);
      Halves(Or(a / 2, b / 2), if a % 2 == 1 || b % 2 == 1 then 1 else 0);
    } else {
      Halves(Or(a / 2, b / 2), if a % 2 == 1 || b % 2 == 1 then 1 else 0);
    }
  }

  lemma {:induction false} ShrBit(w: nat, s: nat, k: nat)
    ensures TestBit(Shr(w, s), k) == TestBit(w, k + s)
    decreases s
  {
    if s > 0 {
      ShrBit(w / 2, s - 1, k);
    }
  }

  /** Numbers with the same bits are equal. */
  lemma {:induction false} SameBits(a: nat, b: nat)
    requires forall k: nat :: TestBit(a, k) == TestBit(b, k)
    ensures a == b
    decreases a + b
  {
    assert TestBit(a, 0) == TestBit(b, 0);
    if a > 0 || b > 0 {
      forall k: nat
        ensures TestBit(a / 2, k) == TestBit(b / 2, k)
      {
        assert TestBit(a, k + 1) == TestBit(b, k + 1);
      }
      SameBits(a / 2, b / 2);
    }
  }

  /** Some bit of `w` is set among the `n` bits from `k` on. */
  function Window(w: nat, k: nat, n: nat): bool
    decreases n
  {
    n > 0 && (TestBit(w, k) || Window(w, k + 1, n - 1))
  }

  lemma {:induction false} WindowJoin(w: nat, k: nat, m: nat, n: nat)
    ensures Window(w, k, m + n) == (Window(w, k, m) || Window(w, k + m, n))
    decreases m
  {
    if m > 0 {
      WindowJoin(w, k + 1, m - 1, n);
    }
  }

  function Pow2(n: nat): nat {
    if n == 0 then 1 else 2 * Pow2(n - 1)
  }

  /** The number with every bit at or below the highest one of `w`. */
  function Fill(w: nat): nat {
    if w == 0 then 0 else 2 * Fill(w / 2) + 1
  }

  lemma {:induction false} WindowHalf(w: nat, k: nat, n: nat)
    ensures Window(w, k + 1, n) == Window(w / 2, k, n)
    decreases n
  {
    if n > 0 {
      WindowHalf(w, k + 1, n - 1);
    }
  }

  lemma {:induction false} WindowOfAll(w: nat, n: nat)
    requires w < Pow2(n)
    ensures Window(w, 0, n) <==> w != 0
    decreases n
  {
    if n > 0 {
      WindowOfAll(w / 2, n - 1);
      WindowHalf(w, 0, n - 1);
    }
  }

  lemma {:induction false} Smaller(w: nat, n: nat)
    requires w < Pow2(n)
    ensures w / 2 < Pow2(n)
  {
  }

  /** Bit k of the filled word says whether a window as wide as the word sees one. */
  lemma {:induction false} FillBit(w: nat, n: nat, k: nat)
    requires w < Pow2(n)
    ensures TestBit(Fill(w), k) == Window(w, k, n)
    decreases k
  {
    if w == 0 {
      NoBits(k);
      EmptyWindow(k, n);
    } else if k == 0 {
      WindowOfAll(w, n);
      Halves(Fill(w / 2), 1);
    } else {
      Smaller(w, n);
      FillBit(w / 2, n, k - 1);
      WindowHalf(w, k - 1, n);
      Halves(Fill(w / 2), 1);
    }
  }

  lemma {:induction false} EmptyWindow(k: nat, n: nat)
    ensures !Window(0, k, n)
    decreases n
  {
    NoBits(k);
    if n > 0 {
      EmptyWindow(k + 1, n - 1);
    }
  }

  predicate PowerOfTwo(n: nat)
    decreases n
  {
    n == 1 || (n > 1 && n % 2 == 0 && PowerOfTwo(n / 2))
  }

  /** The bits of `h` below a power of two. */
  function LowBits(h: nat, n: nat): nat
    decreases n
  {
    if n <= 1 then 0 else 2 * LowBits(h / 2, n / 2) + h % 2
  }

  lemma {:induction false} MaskIsLowBits(h: nat, n: nat)
    requires PowerOfTwo(n)
    ensures And(h, n - 1) == LowBits(h, n)
    decreases n
  {
    if n > 1 {
      MaskIsLowBits(h / 2, n / 2);
      var m := n - 1;
      assert m / 2 == n / 2 - 1 && m % 2 == 1;
    }
  }

  lemma {:induction false} LowBitsIsModulo(h: nat, n: nat)
    requires PowerOfTwo(n)
    ensures LowBits(h, n) == h % n
    decreases n
  {
    if n > 1 {
      LowBitsIsModulo(h / 2, n / 2);
      ModDouble(h, n / 2, n);
    }
  }

  /** Masking with one less than a power of two is the remainder. */
  lemma MaskIsModulo(h: nat, n: nat)
    requires PowerOfTwo(n)
    ensures And(h, n - 1) == h % n
  {
    MaskIsLowBits(h, n);
    LowBitsIsModulo(h, n);
  }
}
