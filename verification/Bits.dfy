/** Integer arithmetic: a maximum, and quotients and remainders for a variable divisor. */
module Division {

  function Max(a: int, b: int): int { if a >= b then a else b }

  lemma ProductAtLeast(x: int, m: int)
    requires x >= 1 && m >= 0
    ensures x * m >= m
  {
    assert x * m == (x - 1) * m + m;
    assert (x - 1) * m >= 0;
  }

  lemma RemainderUnique(a: int, m: int, q: int, r: int)
    requires m > 0 && 0 <= r < m && a == q * m + r
    ensures a % m == r && a / m == q
  {
    var d, e := a / m, a % m;
    assert a == d * m + e by { assert a == m * d + e; }
    assert 0 <= e < m;
    var x := d - q;
    assert x * m == r - e by { assert x * m == d * m - q * m; }
    if x >= 1 { ProductAtLeast(x, m); }
    if x <= -1 { ProductAtLeast(-x, m); }
    assert x == 0;
  }

  lemma SumOfQuotients(a: nat, k: nat, n: nat)
    requires n > 0
    ensures k / n <= (a + k) / n - a / n <= k / n + (if k % n == 0 then 0 else 1)
  {
    var q, r, s, t := a / n, a % n, k / n, k % n;
    assert a == q * n + r && k == s * n + t;
    assert (q + s) * n == q * n + s * n;
    if r + t < n {
      RemainderUnique(a + k, n, q + s, r + t);
    } else {
      assert (q + s + 1) * n == (q + s) * n + n;
      RemainderUnique(a + k, n, q + s + 1, r + t - n);
    }
  }

  lemma Ceiling(k: nat, n: nat)
    requires n > 0
    ensures (k + n - 1) / n == k / n + (if k % n == 0 then 0 else 1)
  {
    var s, t := k / n, k % n;
    assert k == s * n + t;
    if t == 0 {
      RemainderUnique(k + n - 1, n, s, n - 1);
    } else {
      assert (s + 1) * n == s * n + n;
      RemainderUnique(k + n - 1, n, s + 1, t - 1);
    }
  }
}

/**
 Two's-complement 64-bit words as natural numbers, with the bit operations written bit by bit.
 */
module Bits {
  import opened Texts
  import opened Division

  function Pow2(k: nat): (p: nat)
    ensures p >= 1
  {
    if k == 0 then 1 else 2 * Pow2(k - 1)
  }

  /** Bitwise `|`. */
  function Or(a: nat, b: nat): nat
    decreases a + b
  {
    if a == 0 then b else if b == 0 then a
    else 2 * Or(a / 2, b / 2) + (if a % 2 == 1 || b % 2 == 1 then 1 else 0)
  }

  /** Bitwise `&`. */
  function And(a: nat, b: nat): nat
  {
    if a == 0 || b == 0 then 0
    else 2 * And(a / 2, b / 2) + (if a % 2 == 1 && b % 2 == 1 then 1 else 0)
  }

  predicate Bit(a: nat, k: nat)
  {
    if k == 0 then a % 2 == 1 else Bit(a / 2, k - 1)
  }

  lemma {:induction false} NoBits(k: nat)
    ensures !Bit(0, k)
  {
    if k == 0 {
    } else {
      NoBits(k - 1);
    }
  }

  /** Each bit of the results is the one or the other of the operands' bits, or both. */
  lemma {:induction false} OrAndByBits(a: nat, b: nat, k: nat)
    ensures Bit(Or(a, b), k) <==> Bit(a, k) || Bit(b, k)
    ensures Bit(And(a, b), k) <==> Bit(a, k) && Bit(b, k)
  {
    NoBits(k);
    if k == 0 {
    } else {
      NoBits(k - 1);
      OrAndByBits(a / 2, b / 2, k - 1);
    }
  }

  /** `<<` on a 64-bit word: bits shifted out are lost. */
  function ShiftLeft(a: nat, k: nat): nat
  {
    a * Pow2(k) % TWO_64
  }

  /** The 64-bit pattern of a signed value. */
  function Pattern(x: int): (w: nat)
    ensures w < TWO_64
  {
    x % TWO_64
  }

  /** The signed value of a 64-bit pattern. */
  function Signed(w: nat): int
  {
    if w < TWO_63 then w else w - TWO_64
  }

  /** A shifted field and a field that fits below it: `|` adds them. */
  lemma {:induction false} OrIsSum(a: nat, b: nat, k: nat)
    requires b < Pow2(k)
    ensures Or(a * Pow2(k), b) == a * Pow2(k) + b
  {
    if k > 0 && a > 0 && b > 0 {
      var h := a * Pow2(k - 1);
      assert a * Pow2(k) == 2 * h;
      OrIsSum(a, b / 2, k - 1);
      assert Or(2 * h, b) == 2 * Or(h, b / 2) + b % 2;
    }
  }

  /** Masking with k low ones is the remainder modulo 2^k. */
  lemma {:induction false} AndIsRemainder(a: nat, k: nat)
    ensures And(a, Pow2(k) - 1) == a % Pow2(k)
  {
    var p := Pow2(k);
    if a == 0 {
      RemainderUnique(0, p, 0, 0);
    } else if k == 0 {
      assert And(a, 0) == 0 && a % 1 == 0;
    } else {
      var half := Pow2(k - 1);
      AndIsRemainder(a / 2, k - 1);
      assert And(a, 2 * half - 1) == a % (2 * half) by {
        AndLowOnes(a, half);
        HalfRemainder(a, half);
      }
      assert p == 2 * half;
    }
  }

  lemma AndLowOnes(a: nat, p: nat)
    requires a > 0 && p > 0
    ensures And(a, 2 * p - 1) == 2 * And(a / 2, p - 1) + a % 2
  {
    var b := 2 * p - 1;
    assert b > 0 && b / 2 == p - 1 && b % 2 == 1;
  }

  lemma HalfRemainder(a: nat, p: nat)
    requires p > 0
    ensures a % (2 * p) == 2 * ((a / 2) % p) + a % 2
  {
    var q, r := (a / 2) / p, (a / 2) % p;
    assert a / 2 == p * q + r;
    assert q * (2 * p) == 2 * (p * q);
    RemainderUnique(a, 2 * p, q, 2 * r + a % 2);
  }
}
