/** Decimal numerals, as Python's `str` writes them, and text cut at its first colon. */
module Strings {

  function Digit(d: nat): (c: char)
    requires d < 10
  {
    '0' + d as char
  }

  /** str of a nonnegative integer. */
  function Decimal(n: nat): string {
    if n < 10 then [Digit(n)] else Decimal(n / 10) + [Digit(n % 10)]
  }

  lemma {:induction false} DecimalDigits(n: nat)
    ensures Decimal(n) != [] && forall c <- Decimal(n) :: '0' <= c <= '9'
    decreases n
  {
    if n >= 10 {
      DecimalDigits(n / 10);
    }
  }

  lemma {:induction false} DecimalIsInjective(m: nat, n: nat)
    requires Decimal(m) == Decimal(n)
    ensures m == n
    decreases m + n
  {
    var s, t := Decimal(m), Decimal(n);
    assert s[|s| - 1] == t[|t| - 1];
    if m >= 10 { DecimalDigits(m / 10); }
    if n >= 10 { DecimalDigits(n / 10); }
    if m >= 10 && n >= 10 {
      assert s[..|s| - 1] == Decimal(m / 10) && t[..|t| - 1] == Decimal(n / 10);
      DecimalIsInjective(m / 10, n / 10);
    }
  }

  lemma SplitAtLength(a: string, b: string, x: string, y: string)
    requires a + x == b + y && |a| == |b|
    ensures a == b && x == y
  {
    assert a == (a + x)[..|a|] && b == (b + y)[..|b|];
    assert x == (a + x)[|a|..] && y == (b + y)[|b|..];
  }

  /** The position of the first colon, or the length. */
  function FirstColon(s: string): (i: nat)
    ensures i <= |s| && (i < |s| ==> s[i] == ':')
  {
    if s == [] || s[0] == ':' then 0 else 1 + FirstColon(s[1..])
  }

  lemma {:induction false} FirstColonAfter(a: string, x: string)
    requires ':' !in a
    ensures FirstColon(a + (":" + x)) == |a|
    decreases |a|
  {
    if a != [] {
      assert (a + (":" + x))[1..] == a[1..] + (":" + x);
      FirstColonAfter(a[1..], x);
    }
  }

  /** Colon-free beginnings before a colon are determined by the whole. */
  lemma SplitAtColon(a: string, b: string, x: string, y: string)
    requires a + (":" + x) == b + (":" + y) && ':' !in a && ':' !in b
    ensures a == b && x == y
  {
    FirstColonAfter(a, x);
    FirstColonAfter(b, y);
    SplitAtLength(a, b, ":" + x, ":" + y);
    SplitAtLength(":", ":", x, y);
  }
}
