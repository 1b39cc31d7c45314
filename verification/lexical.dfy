/**
 Character classes of the regular expressions the decoder matches lines against,
 and the decimal value of digit strings.

 The classes follow `java.util.regex.Pattern` with its default flags: `\d` is an
 ASCII digit, `\s` is one of the six ASCII white-space characters, and `.` is
 any character except a line terminator.
 */
module Lexical {

  /** `\d` */
  predicate IsDigit(c: char) {
    '0' <= c <= '9'
  }

  /** `\s`: space, tab, line feed, vertical tab, form feed, carriage return. */
  predicate IsSpace(c: char) {
    c == ' ' || c == '\t' || c == '\n' || c == '\U{000B}' || c == '\U{000C}' || c == '\r'
  }

  /** `[\dA-F]`, the characters of the checksum. */
  predicate IsUpperHex(c: char) {
    IsDigit(c) || 'A' <= c <= 'F'
  }

  /** The characters `.` refuses when the pattern has no DOTALL flag. */
  predicate IsLineTerminator(c: char) {
    c == '\n' || c == '\r' || c == '\U{0085}' || c == '\U{2028}' || c == '\U{2029}'
  }

  /** `.` */
  predicate MatchesDot(c: char) {
    !IsLineTerminator(c)
  }

  /** Every character of `s` is in class `p`. */
  predicate All(s: string, p: char -> bool) {
    forall i :: 0 <= i < |s| ==> p(s[i])
  }

  /** `\d+` */
  predicate Digits(s: string) {
    |s| > 0 && All(s, IsDigit)
  }

  /** `\d{n}` */
  predicate FixedDigits(s: string, n: nat) {
    |s| == n && All(s, IsDigit)
  }

  /** The length of the longest prefix of `s` in class `p`: how far a greedy `p*` runs. */
  function Span(s: string, p: char -> bool): (k: nat)
    ensures k <= |s|
    ensures All(s[..k], p)
    ensures k < |s| ==> !p(s[k])
  {
    if |s| == 0 || !p(s[0]) then 0 else 1 + Span(s[1..], p)
  }

  /** A greedy run stops exactly where the class is left, so any prefix that
      is in the class and is followed by a character outside it is the span. */
  lemma {:induction false} SpanOfRun(s: string, p: char -> bool, k: nat)
    requires k <= |s| && All(s[..k], p)
    requires k < |s| ==> !p(s[k])
    ensures Span(s, p) == k
  {
    if k > 0 {
      assert s[..k][0] == s[0];
      assert s[1..][..k - 1] == s[..k][1..];
      SpanOfRun(s[1..], p, k - 1);
    }
  }

  function Pow10(k: nat): (p: nat)
    ensures p >= 1
  {
    if k == 0 then 1 else 10 * Pow10(k - 1)
  }

  function DigitValue(c: char): (d: nat)
    requires IsDigit(c)
    ensures d <= 9
  {
    c as int - '0' as int
  }

  function DigitChar(d: nat): (c: char)
    requires d <= 9
    ensures IsDigit(c) && DigitValue(c) == d
  {
    ('0' as int + d) as char
  }

  /** The number a digit string spells, as `Integer.valueOf` reads it. */
  function NatOf(s: string): (n: nat)
    requires All(s, IsDigit)
    ensures n < Pow10(|s|)
  {
    if |s| == 0 then 0
    else
      10 * NatOf(s[..|s| - 1]) + DigitValue(s[|s| - 1])
  }

  /** `n` written with exactly `width` digits, most significant first (zero-padded, reduced modulo 10^width). */
  function Numeral(n: nat, width: nat): (s: string)
    ensures |s| == width && All(s, IsDigit)
  {
    if width == 0 then "" else Numeral(n / 10, width - 1) + [DigitChar(n % 10)]
  }

  /** Reading back a numeral gives the number it was written from. */
  lemma {:induction false} NatOfNumeral(n: nat, width: nat)
    requires n < Pow10(width)
    ensures NatOf(Numeral(n, width)) == n
  {
    if width > 0 {
      var s := Numeral(n, width);
      assert s[..|s| - 1] == Numeral(n / 10, width - 1);
      NatOfNumeral(n / 10, width - 1);
    }
  }

  /** Writing back the number a digit string spells, at its own width, gives the string. */
  lemma {:induction false} NumeralOfNatOf(s: string)
    requires All(s, IsDigit)
    ensures Numeral(NatOf(s), |s|) == s
  {
    if |s| > 0 {
      var init, last := s[..|s| - 1], s[|s| - 1];
      NumeralOfNatOf(init);
      var n := NatOf(s);
      assert n / 10 == NatOf(init) && n % 10 == DigitValue(last);
      assert DigitChar(DigitValue(last)) == last;
      assert s == init + [last];
    }
  }

  lemma Shift(x: int, y: int, p: int, d: int)
    ensures 10 * (x * p + y) + d == x * (10 * p) + (10 * y + d)
  {
  }

  /** The value of a concatenation: the left part shifted by the right part's length. */
  lemma {:induction false} NatOfAppend(a: string, b: string)
    requires All(a, IsDigit) && All(b, IsDigit)
    ensures NatOf(a + b) == NatOf(a) * Pow10(|b|) + NatOf(b)
  {
    if |b| == 0 {
      assert a + b == a;
    } else {
      var init, last := b[..|b| - 1], b[|b| - 1];
      assert All(a + b, IsDigit);
      assert (a + b)[..|a + b| - 1] == a + init;
      NatOfAppend(a, init);
      var x, y, p, d := NatOf(a), NatOf(init), Pow10(|init|), DigitValue(last);
      assert NatOf(a + b) == 10 * NatOf(a + init) + d;
      assert NatOf(b) == 10 * y + d;
      assert Pow10(|b|) == 10 * p;
      Shift(x, y, p, d);
    }
  }
}
