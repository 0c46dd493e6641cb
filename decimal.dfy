/**
 * Decimal rendering of integers, as JavaScript's template strings render an
 * integral Number: an optional '-' followed by the digits, without leading
 * zeros. `Parse` reads such a string back and is the partner of `Render`.
 */
module Decimal {
  import opened Wrappers

  predicate IsDigit(c: char) {
    '0' <= c <= '9'
  }

  predicate AllDigits(s: string) {
    forall i :: 0 <= i < |s| ==> IsDigit(s[i])
  }

  function DigitChar(d: nat): (c: char)
    requires d < 10
    ensures IsDigit(c)
  {
    ('0' as int + d) as char
  }

  function DigitValue(c: char): (d: nat)
    requires IsDigit(c)
    ensures d < 10 && DigitChar(d) == c
  {
    c as int - '0' as int
  }

  /** The decimal digits of `n`, most significant first. */
  function Digits(n: nat): (s: string)
    ensures |s| > 0 && AllDigits(s)
    ensures s[0] == '0' ==> n == 0 && |s| == 1
  {
    if n < 10 then [DigitChar(n)] else Digits(n / 10) + [DigitChar(n % 10)]
  }

  /** The number a string of decimal digits denotes. */
  function DigitsValue(s: string): nat
    requires AllDigits(s)
  {
    if |s| == 0 then 0 else DigitsValue(s[..|s| - 1]) * 10 + DigitValue(s[|s| - 1])
  }

  /** A string of decimal digits without a leading zero (the string "0" excepted). */
  predicate CanonicalDigits(s: string) {
    |s| > 0 && AllDigits(s) && (s[0] == '0' ==> |s| == 1)
  }

  /** The form JavaScript gives an integer: canonical digits, or '-' and canonical digits of a positive number. */
  predicate Canonical(s: string) {
    CanonicalDigits(s) || (|s| > 1 && s[0] == '-' && CanonicalDigits(s[1..]) && s[1] != '0')
  }

  /** `${n}` for an integral JavaScript Number `n`. */
  function Render(n: int): (s: string)
    ensures |s| > 0 && Canonical(s)
    ensures s[0] == '-' <==> n < 0
    ensures n < 0 ==> |s| > 1 && s[1] != '0'
    ensures n >= 0 ==> (s[0] == '0' ==> s == "0")
  {
    if n < 0 then "-" + Digits(-n) else Digits(n)
  }

  /** Reads an optionally signed string of decimal digits; `None` for anything else. */
  function Parse(s: string): Option<int> {
    if |s| > 1 && s[0] == '-' && AllDigits(s[1..]) then Some(0 - DigitsValue(s[1..]) as int)
    else if |s| > 0 && AllDigits(s) then Some(DigitsValue(s))
    else None
  }

  lemma {:induction false} DigitsRoundTrip(n: nat)
    ensures DigitsValue(Digits(n)) == n
  {
    if n >= 10 {
      DigitsRoundTrip(n / 10);
      var s := Digits(n);
      assert s[..|s| - 1] == Digits(n / 10);
      assert s[|s| - 1] == DigitChar(n % 10);
    }
  }

  /** Rendering loses nothing: the rendered string parses back to the number. */
  lemma RenderRoundTrip(n: int)
    ensures Parse(Render(n)) == Some(n)
  {
    if n < 0 {
      DigitsRoundTrip(-n);
      assert Render(n)[1..] == Digits(-n);
    } else {
      DigitsRoundTrip(n);
    }
  }

  /** A canonical digit string is the rendering of the number it denotes. */
  lemma {:induction false} CanonicalDigitsAreDigits(s: string)
    requires CanonicalDigits(s)
    ensures Digits(DigitsValue(s)) == s
  {
    if |s| > 1 {
      var front, last := s[..|s| - 1], s[|s| - 1];
      assert front[0] == s[0];
      CanonicalDigitsAreDigits(front);
      var v, d := DigitsValue(front), DigitValue(last);
      assert v != 0;
      var n := v * 10 + d;
      assert DigitsValue(s) == n;
      assert Digits(n) == Digits(v) + [DigitChar(d)];
      assert s == front + [last];
    }
  }

  /** Rendering is the only canonical spelling: a canonical string that parses to `n` is `Render(n)`. */
  lemma CanonicalIsRender(s: string, n: int)
    requires Canonical(s) && Parse(s) == Some(n)
    ensures s == Render(n)
  {
    if s[0] == '-' {
      CanonicalDigitsAreDigits(s[1..]);
      assert s == "-" + s[1..];
    } else {
      CanonicalDigitsAreDigits(s);
    }
  }

  /** Distinct numbers render as distinct strings. */
  lemma RenderInjective(m: int, n: int)
    ensures Render(m) == Render(n) ==> m == n
  {
    RenderRoundTrip(m);
    RenderRoundTrip(n);
  }
}
