/**
 Byte strings as the scheduler uses them: `std::string` ordered by `std::less`, iteration of a
 `std::map<std::string, ...>` in key order, and the decimal numerals written by `std::to_string`
 and read back by `std::stoll`.
 */
module Texts {

  datatype Option<+T> = None | Some(value: T)

  type Byte = b: int | 0 <= b < 256

  type Text = seq<Byte>

  const TWO_31 := 0x8000_0000
  const TWO_63 := 0x8000_0000_0000_0000
  const TWO_64 := 0x1_0000_0000_0000_0000

  type Int32 = x: int | -TWO_31 <= x < TWO_31

  type Int64 = x: int | -TWO_63 <= x < TWO_63

  // ---------- order ----------

  /** The strict lexicographic order on unsigned bytes, `std::less<std::string>`. */
  predicate Less(a: Text, b: Text)
  {
    b != [] && (a == [] || a[0] < b[0] || (a[0] == b[0] && Less(a[1..], b[1..])))
  }

  lemma {:induction false} LessTotal(a: Text, b: Text)
    ensures a == b || Less(a, b) || Less(b, a)
    ensures !(Less(a, b) && Less(b, a))
    ensures Less(a, b) ==> a != b
  {
    if a != [] && b != [] {
      LessTotal(a[1..], b[1..]);
      assert a == [a[0]] + a[1..] && b == [b[0]] + b[1..];
    }
  }

  lemma {:induction false} LessTransitive(a: Text, b: Text, c: Text)
    requires Less(a, b) && Less(b, c)
    ensures Less(a, c)
  {
    if a != [] && a[0] == b[0] == c[0] {
      LessTransitive(a[1..], b[1..], c[1..]);
    }
  }

  /** At position `k` the texts first differ, or the first one ends. */
  ghost predicate DifferAt(a: Text, b: Text, k: nat)
  {
    k <= |a| && k <= |b| && a[..k] == b[..k] && (if k < |a| then k < |b| && a[k] < b[k] else k < |b|)
  }

  /** That order is the one of the first differing byte, a proper prefix coming first. */
  lemma {:induction false} LessIsLexicographic(a: Text, b: Text)
    ensures Less(a, b) <==> exists k: nat :: DifferAt(a, b, k)
  {
    if a == [] || b == [] {
      assert b != [] ==> DifferAt(a, b, 0);
    } else if a[0] != b[0] {
      assert a[0] < b[0] ==> DifferAt(a, b, 0);
      assert forall k: nat :: DifferAt(a, b, k) && k > 0 ==> a[..k][0] == b[..k][0];
    } else {
      LessIsLexicographic(a[1..], b[1..]);
      if k: nat :| DifferAt(a[1..], b[1..], k) {
        assert a[..k + 1] == [a[0]] + a[1..][..k] && b[..k + 1] == [b[0]] + b[1..][..k];
        assert DifferAt(a, b, k + 1);
      }
      if k: nat :| DifferAt(a, b, k) {
        assert a[1..][..k - 1] == a[..k][1..] && b[1..][..k - 1] == b[..k][1..];
        assert DifferAt(a[1..], b[1..], k - 1);
      }
    }
  }

  ghost predicate IsLeast(m: Text, s: set<Text>)
  {
    m in s && forall x :: x in s && x != m ==> Less(m, x)
  }

  lemma {:induction false} LeastExists(s: set<Text>)
    requires s != {}
    ensures exists m :: IsLeast(m, s)
  {
    var x :| x in s;
    if s == {x} {
      assert IsLeast(x, s);
    } else {
      LeastExists(s - {x});
      var y :| IsLeast(y, s - {x});
      LessTotal(x, y);
      if Less(x, y) {
        forall z | z in s && z != x ensures Less(x, z) {
          if z != y { LessTransitive(x, y, z); }
        }
        assert IsLeast(x, s);
      } else {
        assert IsLeast(y, s);
      }
    }
  }

  lemma LeastUnique(s: set<Text>)
    ensures forall m, n :: IsLeast(m, s) && IsLeast(n, s) ==> m == n
  {
    forall m, n | IsLeast(m, s) && IsLeast(n, s) ensures m == n {
      LessTotal(m, n);
    }
  }

  function Least(s: set<Text>): (m: Text)
    requires s != {}
    ensures IsLeast(m, s)
  {
    LeastExists(s);
    LeastUnique(s);
    assert forall m :: (m in s && forall x :: x in s && x != m ==> Less(m, x)) ==> IsLeast(m, s);
    var m :| m in s && forall x :: x in s && x != m ==> Less(m, x);
    m
  }

  ghost predicate Ascending(r: seq<Text>)
  {
    forall i, j :: 0 <= i < j < |r| ==> Less(r[i], r[j])
  }

  /** The keys of a `std::map` in iteration order. */
  function InOrder(s: set<Text>): (r: seq<Text>)
    ensures forall x :: x in r <==> x in s
    ensures Ascending(r)
    decreases |s|
  {
    if s == {} then [] else
    var m := Least(s);
    var rest := InOrder(s - {m});
    assert forall j :: 0 <= j < |rest| ==> rest[j] in s - {m};
    [m] + rest
  }

  lemma AscendingDistinct(r: seq<Text>)
    requires Ascending(r)
    ensures forall i, j :: 0 <= i < j < |r| ==> r[i] != r[j]
  {
    forall i, j | 0 <= i < j < |r| ensures r[i] != r[j] {
      LessTotal(r[i], r[j]);
    }
  }

  function Elements(r: seq<Text>): set<Text>
  {
    set x | x in r
  }

  lemma InOrderElements(s: set<Text>)
    ensures Elements(InOrder(s)) == s
    ensures InOrder(s)[..|InOrder(s)|] == InOrder(s)
  {
  }

  ghost predicate Above(id: Text, ids: set<Text>)
  {
    forall x :: x in ids ==> Less(x, id)
  }

  /** One more step of an iteration in key order. */
  lemma NextElement(r: seq<Text>, i: nat)
    requires Ascending(r) && i < |r|
    ensures Elements(r[..i + 1]) == Elements(r[..i]) + {r[i]}
    ensures r[i] !in Elements(r[..i]) && Above(r[i], Elements(r[..i]))
  {
    AscendingDistinct(r);
    assert r[..i + 1] == r[..i] + [r[i]];
  }

  /** An ascending list is determined by its elements. */
  lemma {:induction false} AscendingUnique(r: seq<Text>, s: seq<Text>)
    requires Ascending(r) && Ascending(s) && Elements(r) == Elements(s)
    ensures r == s
  {
    if r == [] {
      NoElements(s);
    } else if s == [] {
      NoElements(r);
    } else {
      SmallestFirst(r, s);
      SmallestFirst(s, r);
      LessTotal(r[0], s[0]);
      TailElements(r);
      TailElements(s);
      AscendingUnique(r[1..], s[1..]);
    }
  }

  lemma NoElements(r: seq<Text>)
    ensures r != [] ==> Elements(r) != {}
  {
    if r != [] { assert r[0] in Elements(r); }
  }

  lemma SmallestFirst(r: seq<Text>, s: seq<Text>)
    requires Ascending(r) && r != [] && s != [] && Elements(r) == Elements(s)
    ensures s[0] == r[0] || Less(r[0], s[0])
  {
    assert s[0] in Elements(s);
    var k :| 0 <= k < |r| && r[k] == s[0];
  }

  lemma TailElements(r: seq<Text>)
    requires Ascending(r) && r != []
    ensures Ascending(r[1..]) && Elements(r[1..]) == Elements(r) - {r[0]}
  {
    AscendingDistinct(r);
    assert r == [r[0]] + r[1..];
  }

  // ---------- decimal numerals ----------

  const MINUS: Byte := 45
  const PLUS: Byte := 43
  const ZERO: Byte := 48

  predicate IsDigit(b: Byte) { ZERO <= b <= ZERO + 9 }

  function Digits(n: nat): (t: Text)
    ensures t != [] && forall i :: 0 <= i < |t| ==> IsDigit(t[i])
  {
    if n < 10 then [ZERO + n] else Digits(n / 10) + [ZERO + n % 10]
  }

  /** `std::to_string` on a signed integer. */
  function ToString(n: int): (t: Text)
    ensures t != []
  {
    if n < 0 then [MINUS] + Digits(-n) else Digits(n)
  }

  /** Value of the longest digit prefix of `t`, after `acc`. */
  function DigitsValue(t: Text, acc: nat): nat
  {
    if t == [] || !IsDigit(t[0]) then acc else DigitsValue(t[1..], 10 * acc + (t[0] - ZERO))
  }

  function SkipSpaces(t: Text): (r: Text)
  {
    if t != [] && (t[0] == 32 || 9 <= t[0] <= 13) then SkipSpaces(t[1..]) else t
  }

  /** `std::stoll`: blanks, an optional sign, at least one digit, the rest ignored. None is an exception. */
  function Stoll(t: Text): Option<Int64>
  {
    var u := SkipSpaces(t);
    var negative := u != [] && u[0] == MINUS;
    var d := if u != [] && (u[0] == MINUS || u[0] == PLUS) then u[1..] else u;
    if d == [] || !IsDigit(d[0]) then None else
    var magnitude: int := DigitsValue(d, 0);
    var v := if negative then -magnitude else magnitude;
    if -TWO_63 <= v < TWO_63 then Some(v) else None
  }

  lemma {:induction false} DigitsValueAppend(a: Text, b: Byte, acc: nat)
    requires IsDigit(b) && forall i :: 0 <= i < |a| ==> IsDigit(a[i])
    ensures DigitsValue(a + [b], acc) == 10 * DigitsValue(a, acc) + (b - ZERO)
  {
    if a == [] {
      assert DigitsValue([b][1..], 10 * acc + (b - ZERO)) == 10 * acc + (b - ZERO);
    } else {
      assert (a + [b])[1..] == a[1..] + [b];
      DigitsValueAppend(a[1..], b, 10 * acc + (a[0] - ZERO));
    }
  }

  lemma {:induction false} DigitsRoundTrip(n: nat)
    ensures DigitsValue(Digits(n), 0) == n
  {
    if n >= 10 {
      DigitsRoundTrip(n / 10);
      DigitsValueAppend(Digits(n / 10), ZERO + n % 10, 0);
    } else {
      assert [ZERO + n][1..] == [];
    }
  }

  /** Printing then parsing a 64-bit integer is the identity, whatever its sign. */
  lemma NumeralRoundTrip(n: Int64)
    ensures Stoll(ToString(n)) == Some(n)
  {
    var value: int := n;
    var magnitude: nat := if value < 0 then -value else value;
    DigitsRoundTrip(magnitude);
    var digits := Digits(magnitude);
    var t := ToString(n);
    assert t == if n < 0 then [MINUS] + digits else digits;
    assert IsDigit(digits[0]);
    assert n < 0 ==> t[1..] == digits;
    assert SkipSpaces(t) == t;
  }

  /** What follows the digits is ignored, unless it is a digit; numbers that do not fit throw, as does no number. */
  lemma StollReadsPrefix(n: int, rest: Text)
    requires n >= 0
    requires rest == [] || !IsDigit(rest[0])
    ensures Stoll(ToString(n) + rest) == if n < TWO_63 then Some(n) else None
    ensures Stoll([MINUS] + ToString(n) + rest) == if n <= TWO_63 then Some(-n) else None
    ensures Stoll([]) == None == Stoll([MINUS])
  {
    var digits := Digits(n);
    DigitsRoundTrip(n);
    DigitsThenRest(digits, rest, 0);
    assert (digits + rest)[0] == digits[0] && IsDigit(digits[0]);
    assert SkipSpaces(digits + rest) == digits + rest;
    var t := [MINUS] + digits + rest;
    assert t[1..] == digits + rest && SkipSpaces(t) == t;
  }

  /** A plus sign before a digit changes nothing. */
  lemma StollTakesPlus(t: Text)
    requires t != [] && 48 <= t[0] <= 57
    ensures Stoll([PLUS] + t) == Stoll(t)
  {
    var p := [PLUS] + t;
    assert p[1..] == t && SkipSpaces(p) == p;
  }

  /** Any other beginning throws. */
  lemma StollRejects(b: Byte, rest: Text)
    requires b != 32 && !(9 <= b <= 13) && b != PLUS && b != MINUS && !(48 <= b <= 57)
    ensures Stoll([b] + rest) == None
  {
    assert SkipSpaces([b] + rest) == [b] + rest;
  }

  lemma {:induction false} DigitsThenRest(digits: Text, rest: Text, acc: nat)
    requires forall i :: 0 <= i < |digits| ==> IsDigit(digits[i])
    requires rest == [] || !IsDigit(rest[0])
    ensures DigitsValue(digits + rest, acc) == DigitsValue(digits, acc)
  {
    if digits == [] {
      assert digits + rest == rest;
    } else {
      assert (digits + rest)[1..] == digits[1..] + rest;
      DigitsThenRest(digits[1..], rest, 10 * acc + (digits[0] - ZERO));
    }
  }

  /** Blanks before the number are skipped. */
  lemma StollSkipsBlanks(blank: Byte, t: Text)
    requires blank == 32 || 9 <= blank <= 13
    ensures Stoll([blank] + t) == Stoll(t)
  {
    assert ([blank] + t)[1..] == t;
  }

  /** 120 is written with the digits of its decimal form, and a minus sign before them if need be. */
  lemma DecimalForm()
    ensures ToString(120) == [49, 50, 48] && ToString(-120) == [45, 49, 50, 48]
  {
    assert Digits(1) == [49] && Digits(12) == [49, 50];
  }

  lemma ToStringInjective(m: Int64, n: Int64)
    ensures ToString(m) == ToString(n) <==> m == n
  {
    NumeralRoundTrip(m);
    NumeralRoundTrip(n);
  }
}
