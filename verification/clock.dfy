/**
 Timestamps as the calendar fields the decoder sets on a UTC `java.util.Calendar`
 after clearing it. Months are 0-based as in `Calendar.MONTH`; the fields are
 kept as set, without the lenient calendar's normalisation.
 */
module Clock {
  import opened Lexical

  datatype Date = Date(year: int, month: int, day: int)

  datatype Timestamp = Timestamp(date: Date, hour: int, minute: int, second: int, millisecond: int)

  /** Two-digit years in a sentence are years of this century. */
  const Century: int := 2000

  /** A date written in a sentence as day, 1-based month and two-digit year. */
  function SentenceDate(day: nat, month: nat, year: nat): (d: Date)
    ensures d.day == day && d.month + 1 == month && d.year - Century == year
  {
    Date(Century + year, month - 1, day)
  }

  /** A time of day on a given date, with no sub-second part. */
  function At(date: Date, hour: nat, minute: nat, second: nat): (t: Timestamp)
    ensures t.date == date && t.hour == hour && t.minute == minute && t.second == second
    ensures t.millisecond == 0
  {
    Timestamp(date, hour, minute, second, 0)
  }

  /** The `DDMMYY` field that writes a date back. */
  function DateText(d: Date): string
    requires d.day >= 0 && d.month >= -1 && d.year >= Century
  {
    Numeral(d.day, 2) + Numeral(d.month + 1, 2) + Numeral(d.year - Century, 2)
  }

  /** The `HHMMSS` digits that write a time of day back. */
  function TimeOfDayText(t: Timestamp): string
    requires t.hour >= 0 && t.minute >= 0 && t.second >= 0
  {
    Numeral(t.hour, 2) + Numeral(t.minute, 2) + Numeral(t.second, 2)
  }

  /** Reading a `DDMMYY` field and writing the date back gives the same six digits. */
  lemma {:induction false} DateTextOfSentenceDate(dd: string, mm: string, yy: string)
    requires FixedDigits(dd, 2) && FixedDigits(mm, 2) && FixedDigits(yy, 2)
    ensures DateText(SentenceDate(NatOf(dd), NatOf(mm), NatOf(yy))) == dd + mm + yy
  {
    NumeralOfNatOf(dd);
    NumeralOfNatOf(mm);
    NumeralOfNatOf(yy);
  }

  /** Writing a date of this century as `DDMMYY` and reading it back gives the same date. */
  lemma {:induction false} SentenceDateOfDateText(d: Date)
    requires 0 <= d.day < 100 && -1 <= d.month < 99 && Century <= d.year < Century + 100
    ensures var s := DateText(d); SentenceDate(NatOf(s[..2]), NatOf(s[2..4]), NatOf(s[4..])) == d
  {
    var s := DateText(d);
    assert s[..2] == Numeral(d.day, 2);
    assert s[2..4] == Numeral(d.month + 1, 2);
    assert s[4..] == Numeral(d.year - Century, 2);
    NatOfNumeral(d.day, 2);
    NatOfNumeral(d.month + 1, 2);
    NatOfNumeral(d.year - Century, 2);
  }

  /** Reading `HH`, `MM`, `SS` and writing the time of day back gives the same digits. */
  lemma {:induction false} TimeOfDayTextOfAt(date: Date, hh: string, mm: string, ss: string)
    requires FixedDigits(hh, 2) && FixedDigits(mm, 2) && FixedDigits(ss, 2)
    ensures TimeOfDayText(At(date, NatOf(hh), NatOf(mm), NatOf(ss))) == hh + mm + ss
  {
    NumeralOfNatOf(hh);
    NumeralOfNatOf(mm);
    NumeralOfNatOf(ss);
  }
}
