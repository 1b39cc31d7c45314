/**
 The decimal numerals of the two sentence grammars, `\d+\.?\d*` and
 `-?\d+\.?\d*`, and the exact value `Double.valueOf` reads from them.

 Values are exact `real`s: the integer part plus the fraction digits over the
 matching power of ten, with no binary rounding.
 */
module Decimals {
  import opened Lexical

  /** `\d+\.?\d*`: a run of digits, then optionally a point and more digits. */
  predicate Unsigned(s: string) {
    var k := Span(s, IsDigit);
    0 < k && (k == |s| || (s[k] == '.' && All(s[k + 1..], IsDigit)))
  }

  /** `-?\d+\.?\d*` */
  predicate Signed(s: string) {
    Unsigned(s) || (|s| > 0 && s[0] == '-' && Unsigned(s[1..]))
  }

  /** The digits before the point. */
  function IntegerPart(s: string): string
    requires Unsigned(s)
  {
    s[..Span(s, IsDigit)]
  }

  /** The digits after the point (empty when there is no point, or nothing follows it). */
  function FractionPart(s: string): string
    requires Unsigned(s)
  {
    var k := Span(s, IsDigit);
    if k == |s| then "" else s[k + 1..]
  }

  /** The value of an unsigned numeral; it is below the next power of ten of its integer part. */
  function Value(s: string): (v: real)
    requires Unsigned(s)
    ensures 0.0 <= v < Pow10(|IntegerPart(s)|) as real
  {
    var i, f := IntegerPart(s), FractionPart(s);
    FractionBelowOne(NatOf(f), Pow10(|f|));
    NatOf(i) as real + NatOf(f) as real / Pow10(|f|) as real
  }

  /** The value of a signed numeral: a leading minus negates the unsigned value that follows. */
  function SignedValue(s: string): (v: real)
    requires Signed(s)
    ensures if s[0] == '-' then v <= 0.0 && -v == Value(s[1..]) else v >= 0.0 && v == Value(s)
  {
    if s[0] == '-' then -Value(s[1..]) else Value(s)
  }

  /** All the digits of the numeral, the point dropped. */
  function Mantissa(s: string): string
    requires Unsigned(s)
  {
    IntegerPart(s) + FractionPart(s)
  }

  /** The value is the numeral read as a whole number with the point removed,
      divided by ten for each fraction digit. */
  lemma ValueIsScaledMantissa(s: string)
    requires Unsigned(s)
    ensures Value(s) == NatOf(Mantissa(s)) as real / Pow10(|FractionPart(s)|) as real
  {
    var i, f := IntegerPart(s), FractionPart(s);
    assert All(i, IsDigit) && All(f, IsDigit);
    NatOfAppend(i, f);
    Rescale(NatOf(i), NatOf(f), Pow10(|f|), NatOf(i + f));
  }

  /** An unsigned numeral is made of its integer part, then the point if it has one, then its fraction. */
  lemma UnsignedParts(s: string)
    requires Unsigned(s)
    ensures Digits(IntegerPart(s)) && All(FractionPart(s), IsDigit)
    ensures s == IntegerPart(s) || s == IntegerPart(s) + "." + FractionPart(s)
  {
    var k := Span(s, IsDigit);
    if k < |s| {
      assert s == s[..k] + "." + s[k + 1..];
    }
  }

  /** Conversely, digits, a point and digits make an unsigned numeral with those parts. */
  lemma PartsUnsigned(i: string, f: string)
    requires Digits(i) && All(f, IsDigit)
    ensures Unsigned(i + "." + f) && IntegerPart(i + "." + f) == i && FractionPart(i + "." + f) == f
  {
    var s := i + "." + f;
    assert s[..|i|] == i && s[|i|] == '.' && s[|i| + 1..] == f;
    SpanOfRun(s, IsDigit, |i|);
  }

  lemma FractionBelowOne(n: nat, p: nat)
    requires n < p
    ensures 0.0 <= n as real / p as real < 1.0
  {
  }

  lemma Rescale(x: nat, y: nat, p: nat, m: nat)
    requires p >= 1 && m == x * p + y
    ensures x as real + y as real / p as real == m as real / p as real
  {
  }
}
