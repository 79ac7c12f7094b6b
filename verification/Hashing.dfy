/**
 The hash that places task and worker ids on the ring, on unsigned 64-bit words. A `char` is signed,
 so bytes from 128 up are sign-extended before they are added.
 */
module Hashing {
  import opened Texts

  type Word = w: int | 0 <= w < TWO_64

  function Char(b: Byte): int { if b < 128 then b else b - 256 }

  /** Bytes from 128 up count as negative, and every byte as itself modulo 256. */
  lemma CharIsSigned(b: Byte)
    ensures -128 <= Char(b) < 128 && (Char(b) - b) % 256 == 0
  {
  }

  function Pow33(n: nat): (p: nat)
    ensures p >= 1
  {
    if n == 0 then 1 else 33 * Pow33(n - 1)
  }

  /** The characters read as base-33 digits, most significant first. */
  function Base33(t: Text): int
  {
    if t == [] then 0 else 33 * Base33(t[..|t| - 1]) + Char(t[|t| - 1])
  }

  /** 5381 * 33^n plus the base-33 value, modulo 2^64. */
  function HashOf(t: Text): Word
  {
    (5381 * Pow33(|t|) + Base33(t)) % TWO_64
  }

  /** The shift-and-add loop. */
  method Hash(key: Text) returns (hash: Word)
    ensures hash == HashOf(key)
  {
    hash := 5381;
    for i := 0 to |key|
      invariant hash == HashOf(key[..i])
    {
      var shifted := hash * 32 % TWO_64;
      var widened := Char(key[i]) % TWO_64;
      var next := (shifted + hash) % TWO_64;
      HashStep(key[..i], key[i], hash);
      hash := (next + widened) % TWO_64;
      assert key[..i + 1] == key[..i] + [key[i]];
    }
    assert key[..|key|] == key;
  }

  lemma HashStep(t: Text, b: Byte, h: Word)
    requires h == HashOf(t)
    ensures HashOf(t + [b]) == ((h * 32 % TWO_64 + h) % TWO_64 + Char(b) % TWO_64) % TWO_64
  {
    assert (t + [b])[..|t|] == t;
    var x := 5381 * Pow33(|t|) + Base33(t);
    assert 5381 * Pow33(|t + [b]|) + Base33(t + [b]) == 33 * x + Char(b);
    WrappedSum(x, h, Char(b));
  }

  lemma WrappedSum(x: int, h: Word, c: int)
    requires h == x % TWO_64
    ensures (33 * x + c) % TWO_64 == ((h * 32 % TWO_64 + h) % TWO_64 + c % TWO_64) % TWO_64
  {
    SameRemainder(33 * x + c, (h * 32 % TWO_64 + h) % TWO_64 + c % TWO_64,
                  33 * (x / TWO_64) + h * 32 / TWO_64 + (h * 32 % TWO_64 + h) / TWO_64 + c / TWO_64);
  }

  lemma SameRemainder(a: int, b: int, k: int)
    requires a - b == k * TWO_64
    ensures a % TWO_64 == b % TWO_64
  {
  }

  lemma {:induction false} Pow33Sum(m: nat, n: nat)
    ensures Pow33(m + n) == Pow33(m) * Pow33(n)
  {
    if n == 0 {
    } else {
      Pow33Sum(m, n - 1);
      var p, q := Pow33(m), Pow33(n - 1);
      assert p * (33 * q) == 33 * (p * q);
    }
  }

  lemma {:induction false} Base33Concat(a: Text, b: Text)
    ensures Base33(a + b) == Base33(a) * Pow33(|b|) + Base33(b)
  {
    if b == [] {
      assert a + b == a;
    } else {
      var f, c := b[..|b| - 1], Char(b[|b| - 1]);
      Base33Concat(a, f);
      assert (a + b)[..|a + b| - 1] == a + f;
      var x, p := Base33(a), Pow33(|f|);
      assert 33 * (x * p + Base33(f)) + c == x * (33 * p) + (33 * Base33(f) + c) by {
        assert x * (33 * p) == 33 * (x * p);
      }
    }
  }

  /** The hash of a concatenation needs only the hash of its first part. */
  lemma HashOfConcat(a: Text, b: Text)
    ensures HashOf(a + b) == (HashOf(a) * Pow33(|b|) + Base33(b)) % TWO_64
  {
    hide Pow33, Base33;
    Pow33Sum(|a|, |b|);
    Base33Concat(a, b);
    JoinedWord(Pow33(|a|), Pow33(|b|), Base33(a), Base33(b));
  }

  lemma JoinedWord(m: nat, n: nat, x: int, c: int)
    ensures (5381 * (m * n) + (x * n + c)) % TWO_64 == ((5381 * m + x) % TWO_64 * n + c) % TWO_64
  {
    Distribute(m, n, x);
    ReducedFactor(5381 * m + x, n, c);
  }

  lemma Distribute(m: int, n: int, x: int)
    ensures (5381 * m + x) * n == 5381 * (m * n) + x * n
  {
    assert (5381 * m) * n == 5381 * (m * n);
  }

  lemma ReducedFactor(x: int, n: nat, c: int)
    ensures (x * n + c) % TWO_64 == (x % TWO_64 * n + c) % TWO_64
  {
    var q, h := x / TWO_64, x % TWO_64;
    assert x == q * TWO_64 + h;
    assert x * n == (q * n) * TWO_64 + h * n by {
      assert (q * TWO_64) * n == (q * n) * TWO_64;
      assert (q * TWO_64 + h) * n == (q * TWO_64) * n + h * n;
    }
    SameRemainder(x * n + c, h * n + c, q * n);
  }

  ghost predicate Near(a: Text, b: Text)
  {
    |a| == |b| && forall i :: 0 <= i < |a| ==> -32 <= Char(a[i]) - Char(b[i]) <= 32
  }

  lemma {:induction false} Base33Apart(a: Text, b: Text)
    requires Near(a, b)
    ensures Base33(a) - Base33(b) < Pow33(|a|) && Base33(b) - Base33(a) < Pow33(|a|)
    ensures a != b ==> Base33(a) != Base33(b)
  {
    if a == [] {
    } else {
      var n := |a| - 1;
      var e, f := a[..n], b[..n];
      Base33Apart(e, f);
      assert a == e + [a[n]] && b == f + [b[n]];
      LastDigit(Base33(e) - Base33(f), Char(a[n]) - Char(b[n]), Pow33(n));
    }
  }

  lemma LastDigit(d: int, c: int, p: int)
    requires -p < d < p && -32 <= c <= 32
    ensures -33 * p < 33 * d + c < 33 * p
    ensures 33 * d + c == 0 ==> d == 0 && c == 0
  {
  }

  lemma {:induction false} Pow33Below(n: nat)
    requires n <= 12
    ensures Pow33(n) < TWO_64
  {
    assert Pow33(4) == 1185921;
    assert Pow33(8) == 1185921 * 1185921;
    assert Pow33(12) == 1185921 * 1185921 * 1185921;
    if n < 12 {
      Pow33Monotone(n, 12);
    }
  }

  lemma {:induction false} Pow33Monotone(m: nat, n: nat)
    requires m <= n
    ensures Pow33(m) <= Pow33(n)
  {
    if m < n { Pow33Monotone(m, n - 1); }
  }

  /** Names with a common prefix whose rests have equal length, at most 12, and differ by at most 32 per
      character never collide. */
  lemma NearNamesNeverCollide(prefix: Text, a: Text, b: Text)
    requires Near(a, b) && |a| <= 12 && a != b
    ensures HashOf(prefix + a) != HashOf(prefix + b)
  {
    HashOfConcat(prefix, a);
    HashOfConcat(prefix, b);
    Base33Apart(a, b);
    Pow33Below(|a|);
    var x := HashOf(prefix) * Pow33(|a|);
    CloseRemainders(x + Base33(a), x + Base33(b));
  }

  lemma CloseRemainders(x: int, y: int)
    requires -TWO_64 < x - y < TWO_64
    ensures x % TWO_64 == y % TWO_64 ==> x == y
  {
  }

  // ---------- the names workers register under ----------

  /** "worker-" */
  const WORKER_PREFIX: Text := [119, 111, 114, 107, 101, 114, 45]

  function WorkerName(n: Int32): Text { WORKER_PREFIX + ToString(n) }

  /** 11...1 in base 33, n digits. */
  function Repunit(n: nat): nat
  {
    if n == 0 then 0 else 33 * Repunit(n - 1) + 1
  }

  ghost predicate NumeralBytes(t: Text)
  {
    forall i :: 0 <= i < |t| ==> 45 <= t[i] <= 57
  }

  lemma {:induction false} Base33Range(t: Text)
    requires NumeralBytes(t)
    ensures 45 * Repunit(|t|) <= Base33(t) <= 57 * Repunit(|t|)
  {
    if t == [] {
    } else {
      Base33Range(t[..|t| - 1]);
    }
  }

  /** Where the hashes of the worker names with an n-character numeral start. */
  function ArcStart(n: nat): Word
  {
    (229488009530220 * Pow33(n) + 45 * Repunit(n)) % TWO_64
  }

  lemma PrefixHash()
    ensures HashOf(WORKER_PREFIX) == 229488009530220
  {
    var p := WORKER_PREFIX;
    assert Pow33(4) == 1185921 && Pow33(7) == 42618442977;
    assert p[..7] == p && p[..7][..6] == p[..6] && p[..6][..5] == p[..5] && p[..5][..4] == p[..4];
    assert p[..4][..3] == p[..3] && p[..3][..2] == p[..2] && p[..2][..1] == p[..1] && p[..1][..0] == [];
    assert Base33(p[..1]) == 119;
    assert Base33(p[..2]) == 4038;
    assert Base33(p[..3]) == 133368;
    assert Base33(p[..4]) == 4401251;
    assert Base33(p[..5]) == 145241384;
    assert Base33(p[..6]) == 4792965786;
    assert Base33(p) == 158167870983;
  }

  lemma ArcTable()
    ensures ArcStart(1) == 7573104314497305 && Repunit(1) == 1
    ensures ArcStart(2) == 249912442378411110 && Repunit(2) == 34
    ensures ArcStart(3) == 8247110598487566675 && Repunit(3) == 1123
    ensures ArcStart(4) == 13900232718155977696 && Repunit(4) == 37060
    ensures ArcStart(5) == 15985821930118025229 && Repunit(5) == 1222981
    ensures ArcStart(6) == 11023289630027387354 && Repunit(6) == 40358374
    ensures ArcStart(7) == 13280420390422302023 && Repunit(7) == 1331826343
    ensures ArcStart(8) == 13978759188616279636 && Repunit(8) == 43950269320
    ensures ArcStart(9) == 130451381598437633 && Repunit(9) == 1450358887561
    ensures ArcStart(10) == 4304895592748441934 && Repunit(10) == 47861843289514
    ensures ArcStart(11) == 12934346044731722555 && Repunit(11) == 1579440828553963
  {
    assert Pow33(1) == 33 && Repunit(1) == 1;
    assert Pow33(2) == 1089 && Repunit(2) == 34;
    assert Pow33(3) == 35937 && Repunit(3) == 1123;
    assert Pow33(4) == 1185921 && Repunit(4) == 37060;
    assert Pow33(5) == 39135393 && Repunit(5) == 1222981;
    assert Pow33(6) == 1291467969 && Repunit(6) == 40358374;
    assert Pow33(7) == 42618442977 && Repunit(7) == 1331826343;
    assert Pow33(8) == 1406408618241 && Repunit(8) == 43950269320;
    assert Pow33(9) == 46411484401953 && Repunit(9) == 1450358887561;
    assert Pow33(10) == 1531578985264449 && Repunit(10) == 47861843289514;
    assert Pow33(11) == 50542106513726817 && Repunit(11) == 1579440828553963;
  }

  /** The hash of a worker name lies on the arc of its numeral's length. */
  lemma NameOnArc(t: Text)
    requires NumeralBytes(t) && 1 <= |t| <= 11
    ensures ArcStart(|t|) <= HashOf(WORKER_PREFIX + t) <= ArcStart(|t|) + 12 * Repunit(|t|)
  {
    hide Pow33, Base33, Repunit;
    var n := |t|;
    PrefixHash();
    HashOfConcat(WORKER_PREFIX, t);
    Base33Range(t);
    ArcDoesNotWrap(n);
    AlongArc(229488009530220 * Pow33(n) + 45 * Repunit(n), Base33(t) - 45 * Repunit(n));
  }

  lemma ArcDoesNotWrap(n: nat)
    requires 1 <= n <= 11
    ensures ArcStart(n) + 12 * Repunit(n) < TWO_64
  {
    ArcTable();
  }

  lemma AlongArc(x: int, rest: nat)
    requires x % TWO_64 + rest < TWO_64
    ensures (x + rest) % TWO_64 == x % TWO_64 + rest
  {
  }

  /** The arcs of different lengths are disjoint. */
  lemma ArcsDisjoint(m: nat, n: nat)
    requires 1 <= m < n <= 11
    ensures ArcStart(m) + 12 * Repunit(m) < ArcStart(n) || ArcStart(n) + 12 * Repunit(n) < ArcStart(m)
  {
    ArcTable();
  }

  lemma {:induction false} DigitsLength(n: nat, k: nat)
    requires 1 <= k && n < Pow10(k)
    ensures |Digits(n)| <= k
  {
    if n >= 10 {
      assert k > 1;
      DigitsLength(n / 10, k - 1);
    }
  }

  function Pow10(n: nat): nat { if n == 0 then 1 else 10 * Pow10(n - 1) }

  lemma NumeralShape(n: Int32)
    ensures NumeralBytes(ToString(n)) && 1 <= |ToString(n)| <= 11
  {
    var value: int := n;
    assert Pow10(10) == 10000000000;
    DigitsLength(if value < 0 then -value else value, 10);
  }

  /** No two workers, whatever their configured 32-bit ids, get the same place on the ring. */
  lemma WorkerNamesNeverCollide(m: Int32, n: Int32)
    requires m != n
    ensures HashOf(WorkerName(m)) != HashOf(WorkerName(n))
  {
    var a, b := ToString(m), ToString(n);
    NumeralShape(m);
    NumeralShape(n);
    ToStringInjective(m, n);
    if |a| == |b| {
      NearNamesNeverCollide(WORKER_PREFIX, a, b);
    } else {
      NameOnArc(a);
      NameOnArc(b);
      if |a| < |b| { ArcsDisjoint(|a|, |b|); } else { ArcsDisjoint(|b|, |a|); }
    }
  }
}
