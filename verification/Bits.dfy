/** Machine-word arithmetic shared by the memory components: powers of two, the bit-scan
    of include/halinc/io.h and bitwise `and`/`or` defined digit by digit on naturals. */
module Bits {

  function Pow2(k: nat): (r: nat)
    ensures r >= 1
  {
    if k == 0 then 1 else 2 * Pow2(k - 1)
  }

  const TWO64: nat := 0x1_0000_0000_0000_0000

  /** Addition of 64-bit numbers. */
  function Add64(x: nat, y: nat): (z: nat) { (x + y) % TWO64 }

  lemma {:induction false} Pow2Monotone(j: nat, k: nat)
    requires j <= k
    ensures Pow2(j) <= Pow2(k)
    ensures j < k ==> 2 * Pow2(j) <= Pow2(k)
    decreases k
  {
    if j < k {
      Pow2Monotone(j, k - 1);
    }
  }

  lemma {:induction false} Pow2Add(j: nat, k: nat)
    ensures Pow2(j + k) == Pow2(j) * Pow2(k)
  {
    if j > 0 {
      Pow2Add(j - 1, k);
      assert Pow2(j + k) == 2 * Pow2(j - 1 + k);
    }
  }

  /** Number of binary digits: one more than the index the `bsrq` instruction returns, 0 for 0. */
  function BitLength(n: nat): (r: nat)
  {
    if n == 0 then 0 else 1 + BitLength(n / 2)
  }

  lemma {:induction false} BitLengthBounds(n: nat)
    requires n > 0
    ensures BitLength(n) >= 1
    ensures Pow2(BitLength(n) - 1) <= n < Pow2(BitLength(n))
  {
    if n > 1 {
      BitLengthBounds(n / 2);
    }
  }

  function BitAnd(a: nat, b: nat): (r: nat)
  {
    if a == 0 || b == 0 then 0
    else 2 * BitAnd(a / 2, b / 2) + (if a % 2 == 1 && b % 2 == 1 then 1 else 0)
  }

  function BitOr(a: nat, b: nat): (r: nat)
    decreases a + b
  {
    if a == 0 then b
    else if b == 0 then a
    else 2 * BitOr(a / 2, b / 2) + (if a % 2 == 1 || b % 2 == 1 then 1 else 0)
  }

  /** `n & (n - 1)` is zero exactly for powers of two. */
  lemma {:induction false} PowerOfTwoTest(n: nat)
    requires n > 0
    ensures BitAnd(n, n - 1) == 0 <==> n == Pow2(BitLength(n) - 1)
  {
    if n > 1 {
      PowerOfTwoTest(n / 2);
      BitLengthBounds(n / 2);
      if n % 2 == 0 {
        assert (n - 1) / 2 == n / 2 - 1;
      } else {
        BitAndSelf(n / 2);
        assert (n - 1) / 2 == n / 2;
      }
    }
  }

  lemma {:induction false} BitAndSelf(n: nat)
    ensures BitAnd(n, n) == n
  {
    if n > 0 {
      BitAndSelf(n / 2);
    }
  }

  /** Masking with `2^k - 1` keeps the low k digits. */
  lemma {:induction false} MaskLow(n: nat, k: nat)
    ensures BitAnd(n, Pow2(k) - 1) == n % Pow2(k)
    decreases k
  {
    if k == 0 {
      assert n % 1 == 0;
    } else if n == 0 {
      ModUnique(0, Pow2(k), 0, 0);
    } else {
      var h, m := Pow2(k - 1), Pow2(k);
      calc {
        BitAnd(n, m - 1);
        { MaskStep(n, h); }
        2 * BitAnd(n / 2, h - 1) + n % 2;
        { MaskLow(n / 2, k - 1); }
        2 * ((n / 2) % h) + n % 2;
        { ModHalf(n, m, h); }
        n % m;
      }
    }
  }

  lemma MaskStep(n: nat, h: nat)
    requires n > 0 && h > 0
    ensures BitAnd(n, 2 * h - 1) == 2 * BitAnd(n / 2, h - 1) + n % 2
  {
    assert (2 * h - 1) / 2 == h - 1 && (2 * h - 1) % 2 == 1;
  }

  lemma ModHalf(n: nat, m: nat, h: nat)
    requires h >= 1 && m == 2 * h
    ensures n % m == 2 * ((n / 2) % h) + n % 2
  {
    var q, r := (n / 2) / h, (n / 2) % h;
    assert n / 2 == q * h + r;
    assert q * m == 2 * (q * h);
    ModUnique(n, m, q, 2 * r + n % 2);
  }

  lemma ModUnique(n: nat, m: nat, q: nat, r: nat)
    requires m > 0 && n == q * m + r && r < m
    ensures n % m == r && n / m == q
  {
    var d := n / m - q;
    assert n == n / m * m + n % m;
    assert d * m == r - n % m;
    if d != 0 {
      MultipleIsFar(d, m);
      assert false;
    }
  }

  lemma MultipleIsFar(d: int, m: int)
    requires d != 0 && m > 0
    ensures d * m >= m || d * m <= -m
  {
    if d > 0 {
      MultipleAtLeast(d, m);
    } else {
      MultipleAtLeast(-d, m);
      assert (-d) * m == -(d * m);
    }
  }

  lemma {:induction false} MultipleAtLeast(d: nat, m: nat)
    requires d > 0
    ensures d * m >= m
  {
    if d > 1 {
      MultipleAtLeast(d - 1, m);
      assert d * m == (d - 1) * m + m;
    }
  }

  /** Or-ing a multiple of 2^k with something below 2^k adds the two. */
  lemma {:induction false} OrIsAdd(a: nat, b: nat, k: nat)
    requires a % Pow2(k) == 0 && b < Pow2(k)
    ensures BitOr(a, b) == a + b
    decreases k
  {
    if k > 0 && a > 0 && b > 0 {
      var h := Pow2(k - 1);
      ModHalf(a, 2 * h, h);
      assert a % 2 == 0 && (a / 2) % h == 0;
      OrIsAdd(a / 2, b / 2, k - 1);
    }
  }
}
