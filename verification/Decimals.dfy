/** Numbers written in decimal, as template strings and `padStart` produce them. */
module Decimals {

  function Digit(d: nat): char
    requires d < 10
  {
    ('0' as int + d) as char
  }

  /** `${n}` for a number that is not negative. */
  function Decimal(n: nat): (s: string)
    ensures |s| > 0
  {
    if n < 10 then [Digit(n)] else Decimal(n / 10) + [Digit(n % 10)]
  }

  /** `${n}` for any integer. */
  function Signed(n: int): string { if n < 0 then "-" + Decimal(-n) else Decimal(n) }

  /** The last `w` digits of `n`, with leading zeros. */
  function Fixed(n: nat, w: nat): (s: string)
    ensures |s| == w
    decreases w, n
  {
    if w == 0 then "" else Fixed(n / 10, w - 1) + [Digit(n % 10)]
  }

  lemma {:induction false} DecimalInjective(a: nat, b: nat)
    requires Decimal(a) == Decimal(b)
    ensures a == b
  {
    var s, t := Decimal(a), Decimal(b);
    assert s[|s| - 1] == Digit(a % 10) && t[|t| - 1] == Digit(b % 10);
    assert a % 10 == b % 10;
    if a >= 10 && b >= 10 {
      assert s[..|s| - 1] == Decimal(a / 10) && t[..|t| - 1] == Decimal(b / 10);
      DecimalInjective(a / 10, b / 10);
    }
  }

  predicate IsDigit(c: char) { '0' <= c <= '9' }

  lemma {:induction false} DecimalDigits(n: nat)
    ensures forall i :: 0 <= i < |Decimal(n)| ==> IsDigit(Decimal(n)[i])
  {
    if n >= 10 { DecimalDigits(n / 10); }
  }

  predicate Without(s: string, c: char) { forall i :: 0 <= i < |s| ==> s[i] != c }

  lemma SignedWithout(n: int, c: char)
    requires c != '-' && !IsDigit(c)
    ensures Without(Signed(n), c)
  {
    hide Decimal;
    DecimalDigits(if n < 0 then -n else n);
  }

  /** Only the number itself is written as a given one-digit text. */
  lemma SignedDigit(n: int, d: nat)
    requires 1 <= d < 10
    ensures Signed(n) == [Digit(d)] <==> n == d
  {
    assert Decimal(d) == [Digit(d)];
    if n >= 0 && Signed(n) == [Digit(d)] { DecimalInjective(n, d); }
    if n < 0 { assert Signed(n)[0] == '-'; }
  }

  /** What comes before the first separator, and what comes after it, can be read off a text. */
  lemma {:induction false} CutAtFirst(a: string, r: string, b: string, s: string, c: char)
    requires Without(a, c) && Without(b, c) && a + [c] + r == b + [c] + s
    ensures a == b && r == s
  {
    var f, g := a + [c] + r, b + [c] + s;
    assert f[0] == if a == "" then c else a[0];
    assert g[0] == if b == "" then c else b[0];
    assert a == "" <==> b == "";
    if a == "" {
      assert f[1..] == r && g[1..] == s;
    } else {
      assert f[1..] == a[1..] + [c] + r && g[1..] == b[1..] + [c] + s;
      CutAtFirst(a[1..], r, b[1..], s, c);
    }
  }

  function PadStart(s: string, w: nat): string
    decreases w - |s|
  {
    if |s| >= w then s else PadStart("0" + s, w)
  }

  function Pow10(w: nat): nat { if w == 0 then 1 else 10 * Pow10(w - 1) }

  /** `Number(text)` for text made of digits. */
  function NumberOf(s: string): nat
    requires forall i :: 0 <= i < |s| ==> IsDigit(s[i])
  {
    if s == "" then 0
    else
      assert IsDigit(s[|s| - 1]);
      10 * NumberOf(s[..|s| - 1]) + (s[|s| - 1] as int - '0' as int)
  }

  lemma {:induction false} NumberOfFixed(n: nat, w: nat)
    requires n < Pow10(w)
    ensures forall i :: 0 <= i < w ==> IsDigit(Fixed(n, w)[i])
    ensures NumberOf(Fixed(n, w)) == n
  {
    if w > 0 {
      NumberOfFixed(n / 10, w - 1);
      assert Fixed(n, w)[..w - 1] == Fixed(n / 10, w - 1);
    }
  }

  /** A number of exactly `w` digits needs no leading zero. */
  lemma {:induction false} DecimalIsFixed(n: nat, w: nat)
    requires 1 <= w && n < Pow10(w) && (w == 1 || Pow10(w - 1) <= n)
    ensures Decimal(n) == Fixed(n, w)
  {
    if w == 1 {
      assert Fixed(n / 10, 0) == "";
    } else {
      DecimalIsFixed(n / 10, w - 1);
    }
  }

  lemma {:induction false} DecimalLength(n: nat, w: nat)
    requires 1 <= w && n < Pow10(w)
    ensures |Decimal(n)| <= w
  {
    if n >= 10 {
      assert w > 1;
      DecimalLength(n / 10, w - 1);
    }
  }

  lemma {:induction false} DecimalLonger(n: nat, w: nat)
    requires Pow10(w) <= n
    ensures |Decimal(n)| > w
  {
    if w > 0 {
      assert Pow10(w) == 10 * Pow10(w - 1);
      Pow10Positive(w - 1);
      DecimalLonger(n / 10, w - 1);
    }
  }

  lemma {:induction false} Pow10Positive(w: nat)
    ensures Pow10(w) >= 1
  {
    if w > 0 { Pow10Positive(w - 1); }
  }

  /** `String(n).padStart(2, '0')` */
  lemma PadTwo(n: nat)
    requires n < 100
    ensures PadStart(Decimal(n), 2) == Fixed(n, 2)
  {
    assert Pow10(1) == 10 && Pow10(2) == 100;
    if n < 10 {
      DecimalIsFixed(n, 1);
      assert Fixed(n, 2) == Fixed(0, 1) + Fixed(n, 1);
      assert Fixed(0, 1) == "0";
    } else {
      DecimalIsFixed(n, 2);
    }
  }

  // ---------------------------------------------------------------- comparing text

  /** JavaScript's `<` on strings: the first differing character decides, a proper prefix comes first. */
  predicate TextLess(a: string, b: string) {
    if b == "" then false
    else if a == "" then true
    else a[0] < b[0] || (a[0] == b[0] && TextLess(a[1..], b[1..]))
  }

  predicate TextAtMost(a: string, b: string) { a == b || TextLess(a, b) }

  lemma {:induction false} TextLessConcat(a: string, b: string, c: string, d: string)
    requires |a| == |b|
    ensures TextLess(a + c, b + d) <==> TextLess(a, b) || (a == b && TextLess(c, d))
  {
    if a == "" {
      assert a + c == c && b + d == d;
    } else {
      TextLessConcat(a[1..], b[1..], c, d);
      assert (a + c)[1..] == a[1..] + c && (b + d)[1..] == b[1..] + d;
      assert a == b <==> a[0] == b[0] && a[1..] == b[1..];
    }
  }

  /** On numbers written with the same width, text order is number order. */
  lemma {:induction false} FixedOrder(a: nat, b: nat, w: nat)
    requires a < Pow10(w) && b < Pow10(w)
    ensures TextLess(Fixed(a, w), Fixed(b, w)) <==> a < b
    ensures Fixed(a, w) == Fixed(b, w) <==> a == b
  {
    if w > 0 {
      FixedOrder(a / 10, b / 10, w - 1);
      NumberOfFixed(a, w);
      NumberOfFixed(b, w);
      TextLessConcat(Fixed(a / 10, w - 1), Fixed(b / 10, w - 1), [Digit(a % 10)], [Digit(b % 10)]);
    }
  }
}
