/**
 Worked values from the protocol's documented behaviour, as facts about the model.
 */
module Samples {
  import opened Lexical
  import opened Decimals
  import opened Coordinates
  import opened Clock
  import opened Aspicore

  /** The value of a digit string one digit longer. */
  lemma NatOfSnoc(s: string, c: char)
    requires All(s, IsDigit) && IsDigit(c)
    ensures NatOf(s + [c]) == 10 * NatOf(s) + DigitValue(c)
  {
    assert (s + [c])[..|s|] == s;
  }

  /** Two-digit years are placed in 2000-2099: the date field `230394` is 23 March 2094. */
  lemma CenturyOfTwoDigitYear()
    ensures RmcDate("23", "03", "94") == Date(2094, 2, 23)
  {
  }

  /** A GGA altitude of `100.0` above the geoid with a separation of `-17.0` is reported as 83 metres. */
  lemma AltitudeAddsSeparation()
    ensures SignedValue("100.0") + SignedValue("-17.0") == 83.0
  {
    HundredValue();
    MinusSeventeenValue();
  }

  lemma {:induction false} HundredValue()
    ensures SignedValue("100.0") == 100.0
  {
    PartsUnsigned("100", "0");
    assert "100.0" == "100" + "." + "0";
    NatOfSnoc("", '1');
    assert "" + ['1'] == "1" && "1" + ['0'] == "10" && "10" + ['0'] == "100";
    NatOfSnoc("1", '0');
    NatOfSnoc("10", '0');
    NatOfSnoc("", '0');
    assert "" + ['0'] == "0";
  }

  lemma {:induction false} MinusSeventeenValue()
    ensures SignedValue("-17.0") == -17.0
  {
    PartsUnsigned("17", "0");
    assert "-17.0"[1..] == "17" + "." + "0";
    NatOfSnoc("", '1');
    assert "" + ['1'] == "1" && "1" + ['7'] == "17";
    NatOfSnoc("1", '7');
    NatOfSnoc("", '0');
    assert "" + ['0'] == "0";
  }

  /** 27 degrees 39 minutes is 27.65 degrees, negated in the southern hemisphere. */
  lemma HemisphereSign()
    ensures ToDecimalDegrees(27, 39.0, 'N', 'S') == 27.65
    ensures ToDecimalDegrees(27, 39.0, 'S', 'S') == -27.65
  {
  }
}
