/**
 * Decimal text of integers, as Rust's `{}` and `{:?}` print an integer:
 * the digits of the magnitude, with a leading '-' for a negative value.
 * The parser is the partner the generated code relies on: rustc reads the
 * printed digits back as the same number.
 */
module Decimal {
  import opened Wrappers

  predicate IsDigit(c: char) { '0' <= c <= '9' }

  predicate AllDigits(s: string) { forall i :: 0 <= i < |s| ==> IsDigit(s[i]) }

  function DigitChar(d: nat): (c: char)
    requires d < 10
    ensures IsDigit(c) && c as int - '0' as int == d
  {
    ('0' as int + d) as char
  }

  /** Value of a string of digits, most significant first. */
  function DigitsValue(s: string): nat
    requires AllDigits(s)
  {
    if s == [] then 0
    else DigitsValue(s[..|s| - 1]) * 10 + (s[|s| - 1] as int - '0' as int)
  }

  /** `{}` of a non-negative integer. */
  function NatText(n: nat): (s: string)
    ensures |s| > 0 && AllDigits(s)
    ensures n < 10 <==> |s| == 1
  {
    if n < 10 then [DigitChar(n)] else NatText(n / 10) + [DigitChar(n % 10)]
  }

  /** `{}` / `{:?}` of a signed integer. */
  function IntText(n: int): (s: string)
    ensures |s| > 0
    ensures n < 0 <==> s[0] == '-'
  {
    if n < 0 then "-" + NatText(-n) else NatText(n)
  }

  /** How rustc reads an unsigned decimal literal. */
  function ParseNat(s: string): (r: Option<nat>)
    ensures r.Some? <==> |s| > 0 && AllDigits(s)
  {
    if |s| > 0 && AllDigits(s) then Some(DigitsValue(s)) else None
  }

  /** How rustc reads a decimal literal with an optional unary minus. */
  function ParseInt(s: string): (r: Option<int>)
  {
    if |s| > 0 && s[0] == '-' then
      match ParseNat(s[1..])
      case Some(n) => Some(0 - n)
      case None => None
    else
      match ParseNat(s)
      case Some(n) => Some(n)
      case None => None
  }

  lemma {:induction false} NatTextValue(n: nat)
    ensures DigitsValue(NatText(n)) == n
  {
    if n >= 10 {
      var s := NatText(n);
      assert s[..|s| - 1] == NatText(n / 10);
      NatTextValue(n / 10);
    }
  }

  /** Printing a natural number and reading it back gives the same number. */
  lemma ParseNatText(n: nat)
    ensures ParseNat(NatText(n)) == Some(n)
  {
    NatTextValue(n);
  }

  /** Printing a signed integer and reading it back gives the same number. */
  lemma ParseIntText(n: int)
    ensures ParseInt(IntText(n)) == Some(n)
  {
    var s := IntText(n);
    if n < 0 {
      assert s[1..] == NatText(-n);
      ParseNatText(-n);
    } else {
      assert s == NatText(n) && IsDigit(s[0]);
      ParseNatText(n);
    }
  }

  /** Distinct numbers print as distinct texts. */
  lemma NatTextInjective(a: nat, b: nat)
    requires NatText(a) == NatText(b)
    ensures a == b
  {
    ParseNatText(a);
    ParseNatText(b);
  }

  /**
   * A run of digits followed by a non-digit (or nothing) is determined by
   * the whole text: this is how a reader finds where a number ends.
   */
  lemma DigitsSplit(d1: string, x: string, d2: string, y: string)
    requires AllDigits(d1) && AllDigits(d2)
    requires x == [] || !IsDigit(x[0])
    requires y == [] || !IsDigit(y[0])
    requires d1 + x == d2 + y
    ensures d1 == d2 && x == y
  {
    assert d1 == (d1 + x)[..|d1|];
    assert d2 == (d2 + y)[..|d2|];
    assert x == (d1 + x)[|d1|..];
    assert y == (d2 + y)[|d2|..];
  }
}
