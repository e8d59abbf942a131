/** Bit masks over naturals: why `x & (n - 1)` is `x % n` when `n & (n - 1)` is zero. */
module Bits {

  function Pow2(k: nat): (r: nat)
    ensures r >= 1
  {
    if k == 0 then 1 else 2 * Pow2(k - 1)
  }

  /** Bitwise and, digit by digit. */
  function BitAnd(x: nat, y: nat): nat {
    if x == 0 || y == 0 then 0
    else 2 * BitAnd(x / 2, y / 2) + (if x % 2 == 1 && y % 2 == 1 then 1 else 0)
  }

  /** The test both ring buffers make at compile time. */
  predicate PowerOfTwo(n: nat) {
    n >= 1 && BitAnd(n, n - 1) == 0
  }

  lemma {:induction false} AndSelf(x: nat)
    ensures BitAnd(x, x) == x
  {
    if x > 0 {
      AndSelf(x / 2);
      assert x == 2 * (x / 2) + x % 2;
    }
  }

  /** The compile-time test accepts only powers of two ... */
  lemma {:induction false} PowerOfTwoHasExponent(n: nat) returns (k: nat)
    requires PowerOfTwo(n)
    ensures n == Pow2(k)
  {
    if n == 1 {
      k := 0;
    } else if n % 2 == 0 {
      assert (n - 1) / 2 == n / 2 - 1;
      var j := PowerOfTwoHasExponent(n / 2);
      k := j + 1;
    } else {
      assert (n - 1) / 2 == n / 2;
      AndSelf(n / 2);
      assert false;
    }
  }

  /** The last k binary digits. */
  function LowBits(x: nat, k: nat): nat {
    if k == 0 then 0 else 2 * LowBits(x / 2, k - 1) + x % 2
  }

  lemma {:induction false} MaskIsLowBits(x: nat, k: nat)
    ensures BitAnd(x, Pow2(k) - 1) == LowBits(x, k)
  {
    if k > 0 {
      MaskIsLowBits(x / 2, k - 1);
      AndOdd(x, Pow2(k - 1) - 1, Pow2(k) - 1);
    }
  }

  lemma {:induction false} LowBitsAreLeft(x: nat, k: nat) returns (q: nat)
    ensures x == Pow2(k) * q + LowBits(x, k) && LowBits(x, k) < Pow2(k)
  {
    if k == 0 {
      q := x;
    } else {
      q := LowBitsAreLeft(x / 2, k - 1);
      DoubleSplit(x, Pow2(k - 1), q, LowBits(x / 2, k - 1));
    }
  }

  lemma DoubleSplit(x: nat, m: nat, q: nat, r: nat)
    requires x / 2 == m * q + r
    ensures x == 2 * m * q + (2 * r + x % 2)
  {
    assert 2 * m * q == 2 * (m * q);
  }

  lemma MaskOfExponent(x: nat, k: nat)
    ensures BitAnd(x, Pow2(k) - 1) == x % Pow2(k)
  {
    MaskIsLowBits(x, k);
    var q := LowBitsAreLeft(x, k);
    RemainderUnique(x, Pow2(k), q, LowBits(x, k));
  }

  /** ... and all of them. */
  lemma {:induction false} ExponentIsPowerOfTwo(k: nat)
    ensures PowerOfTwo(Pow2(k))
  {
    MaskOfExponent(Pow2(k), k);
    RemainderUnique(Pow2(k), Pow2(k), 1, 0);
  }

  lemma AndOdd(x: nat, h: nat, y: nat)
    requires y == 2 * h + 1
    ensures BitAnd(x, y) == 2 * BitAnd(x / 2, h) + x % 2
  {
    assert y / 2 == h && y % 2 == 1;
  }

  lemma MultipleIsFar(m: nat, d: int)
    ensures d >= 1 ==> m * d >= m
    ensures d <= -1 ==> m * d <= 0 - m
  {
  }

  lemma RemainderUnique(x: int, m: nat, q: int, r: int)
    requires m >= 1 && 0 <= r < m && x == m * q + r
    ensures x % m == r
  {
    var d := x / m - q;
    assert x == m * (x / m) + x % m;
    assert m * d == r - x % m;
    MultipleIsFar(m, d);
  }

  /** Masking with n - 1 is taking the remainder by n. */
  lemma MaskIsRemainder(x: nat, n: nat)
    requires PowerOfTwo(n)
    ensures BitAnd(x, n - 1) == x % n
  {
    var k := PowerOfTwoHasExponent(n);
    MaskOfExponent(x, k);
  }

  lemma {:induction false} SmallerPowerDivides(j: nat, k: nat)
    requires j <= k
    ensures Pow2(k) % Pow2(j) == 0
  {
    if j == k {
      RemainderUnique(Pow2(k), Pow2(j), 1, 0);
    } else {
      SmallerPowerDivides(j, k - 1);
      var q := Pow2(k - 1) / Pow2(j);
      RemainderUnique(Pow2(k), Pow2(j), 2 * q, 0);
    }
  }

  lemma {:induction false} Pow2Monotone(j: nat, k: nat)
    requires j < k
    ensures Pow2(j) < Pow2(k)
  {
    if j + 1 < k {
      Pow2Monotone(j, k - 1);
    }
  }

  /** A power of two no larger than 2^k divides 2^k. */
  lemma PowerOfTwoDivides(n: nat, k: nat)
    requires PowerOfTwo(n) && n <= Pow2(k)
    ensures Pow2(k) % n == 0
  {
    var j := PowerOfTwoHasExponent(n);
    if j > k {
      Pow2Monotone(k, j);
    } else {
      SmallerPowerDivides(j, k);
    }
  }

  /** Two numbers less than n apart that agree modulo n are the same number. */
  lemma CloseAndCongruent(a: nat, b: nat, n: nat)
    requires n >= 1 && a % n == b % n && a < b + n && b < a + n
    ensures a == b
  {
    var d := a / n - b / n;
    assert a - b == n * d;
    MultipleIsFar(n, d);
  }

  /** Reducing by a multiple of n first does not change the remainder by n. */
  lemma RemainderOfRemainder(x: nat, w: nat, n: nat)
    requires n >= 1 && w >= 1 && w % n == 0
    ensures x % w % n == x % n
  {
    var q, k, r := x / w, w / n, x % w;
    assert x == w * q + r && w == n * k;
    ProductRegroup(n, k, q);
    assert r == n * (r / n) + r % n;
    assert x == n * (k * q + r / n) + r % n;
    RemainderUnique(x, n, k * q + r / n, r % n);
  }

  lemma ProductRegroup(n: nat, k: nat, q: nat)
    ensures (n * k) * q == n * (k * q)
  {
  }

  /** The remainder d further on: it grows by d, or wraps once. */
  lemma RemainderAhead(x: nat, d: nat, w: nat)
    requires d < w
    ensures (x + d) % w == if x % w + d < w then x % w + d else x % w + d - w
  {
    var q, r := x / w, x % w;
    assert x == w * q + r;
    if r + d < w {
      RemainderUnique(x + d, w, q, r + d);
    } else {
      assert w * (q + 1) == w * q + w;
      RemainderUnique(x + d, w, q + 1, r + d - w);
    }
  }

  /** Masking after a wrap finds the same slot as before it. */
  lemma MaskOfRemainder(x: nat, w: nat, n: nat)
    requires PowerOfTwo(n) && w >= 1 && w % n == 0
    ensures BitAnd(x % w, n - 1) == x % n
  {
    MaskIsRemainder(x % w, n);
    RemainderOfRemainder(x, w, n);
  }
}
