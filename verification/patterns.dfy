/**
 The three line grammars of the Aspicore protocol (`IMEI`, `$GPRMC`, `$GPGGA`),
 matched against the whole line as `Matcher.matches()` does.

 A match is a datatype of the pattern's capture groups, plus the text the
 pattern reads but does not capture (the fractional seconds, the RMC tail, the
 GGA station and checksum), so that a match and its rendering determine each
 other: `MatchX(line) == Some(m)` exactly when `m` is well formed and
 `XText(m) == line`.
 */
module Patterns {
  import opened Options
  import opened Lexical
  import opened Decimals
  import opened Fields

  predicate StartsWith(s: string, prefix: string) {
    |prefix| <= |s| && s[..|prefix|] == prefix
  }

  // ----- IMEI\s+(\d+) -----

  datatype ImeiMatch = ImeiMatch(separator: string, imei: string)

  predicate ImeiOk(m: ImeiMatch) {
    |m.separator| > 0 && All(m.separator, IsSpace) && Digits(m.imei)
  }

  function ImeiText(m: ImeiMatch): string {
    "IMEI" + m.separator + m.imei
  }

  function MatchImei(line: string): (r: Option<ImeiMatch>)
    ensures r.Some? ==> ImeiOk(r.value) && ImeiText(r.value) == line
    ensures r.Some? ==> StartsWith(line, "IMEI")
  {
    if !StartsWith(line, "IMEI") then None
    else
      var rest := line[4..];
      var k := Span(rest, IsSpace);
      if 0 < k && Digits(rest[k..]) then
        assert line == "IMEI" + rest[..k] + rest[k..];
        Some(ImeiMatch(rest[..k], rest[k..]))
      else None
  }

  lemma MatchImeiText(m: ImeiMatch)
    requires ImeiOk(m)
    ensures MatchImei(ImeiText(m)) == Some(m)
  {
    var line := ImeiText(m);
    var rest := m.separator + m.imei;
    assert line[..4] == "IMEI" && line[4..] == rest;
    assert rest[..|m.separator|] == m.separator && rest[|m.separator|..] == m.imei;
    assert !IsSpace(m.imei[0]);
    SpanOfRun(rest, IsSpace, |m.separator|);
  }

  // ----- (\d{2})(\d{2})(\d{2})\.?\d* : the time field of both sentences -----

  datatype TimeGroups = TimeGroups(hour: string, minute: string, second: string, fraction: string)

  /** `\.?\d*`, the fractional seconds the pattern reads and drops. */
  predicate FractionOk(s: string) {
    All(s, IsDigit) || (|s| > 0 && s[0] == '.' && All(s[1..], IsDigit))
  }

  predicate TimeOk(t: TimeGroups) {
    FixedDigits(t.hour, 2) && FixedDigits(t.minute, 2) && FixedDigits(t.second, 2) && FractionOk(t.fraction)
  }

  function TimeText(t: TimeGroups): string {
    t.hour + t.minute + t.second + t.fraction
  }

  function MatchTime(field: string): (r: Option<TimeGroups>)
    ensures r.Some? ==> TimeOk(r.value) && TimeText(r.value) == field
  {
    if |field| >= 6 && All(field[..6], IsDigit) && FractionOk(field[6..]) then
      assert field[..6][..2] == field[..2] && field[..6][2..4] == field[2..4] && field[..6][4..] == field[4..6];
      assert field == field[..2] + field[2..4] + field[4..6] + field[6..];
      Some(TimeGroups(field[..2], field[2..4], field[4..6], field[6..]))
    else None
  }

  lemma MatchTimeText(t: TimeGroups)
    requires TimeOk(t)
    ensures MatchTime(TimeText(t)) == Some(t)
  {
    var f := TimeText(t);
    assert f[..6] == t.hour + t.minute + t.second;
    assert f[..2] == t.hour && f[2..4] == t.minute && f[4..6] == t.second && f[6..] == t.fraction;
  }

  // ----- (\d{w})(\d{2}\.\d+),([PN]) : a coordinate and its hemisphere letter -----

  datatype CoordinateGroups = CoordinateGroups(degrees: string, minutes: string, hemisphere: char)

  /** `\d{2}\.\d+` */
  predicate MinutesOk(s: string) {
    |s| >= 4 && All(s[..2], IsDigit) && s[2] == '.' && All(s[3..], IsDigit)
  }

  predicate CoordinateOk(c: CoordinateGroups, width: nat, positive: char, negative: char) {
    FixedDigits(c.degrees, width) && MinutesOk(c.minutes) && (c.hemisphere == positive || c.hemisphere == negative)
  }

  /** The two fields a coordinate occupies. */
  function CoordinateTexts(c: CoordinateGroups): seq<string> {
    [c.degrees + c.minutes, [c.hemisphere]]
  }

  function MatchCoordinate(value: string, letter: string, width: nat, positive: char, negative: char): (r: Option<CoordinateGroups>)
    ensures r.Some? ==> CoordinateOk(r.value, width, positive, negative) && CoordinateTexts(r.value) == [value, letter]
  {
    if |value| >= width && All(value[..width], IsDigit) && MinutesOk(value[width..])
       && |letter| == 1 && (letter[0] == positive || letter[0] == negative)
    then
      assert value == value[..width] + value[width..] && letter == [letter[0]];
      Some(CoordinateGroups(value[..width], value[width..], letter[0]))
    else None
  }

  lemma MatchCoordinateText(c: CoordinateGroups, width: nat, positive: char, negative: char)
    requires CoordinateOk(c, width, positive, negative)
    ensures MatchCoordinate(c.degrees + c.minutes, [c.hemisphere], width, positive, negative) == Some(c)
  {
    var v := c.degrees + c.minutes;
    assert v[..width] == c.degrees && v[width..] == c.minutes;
  }

  /** A well-formed minutes group is an unsigned numeral with a two-digit integer part, so its value is below 100. */
  lemma MinutesAreDecimal(s: string)
    requires MinutesOk(s)
    ensures Unsigned(s) && |IntegerPart(s)| == 2
  {
    assert s[..2][0] == s[0] && s[..2][1] == s[1];
    SpanOfRun(s, IsDigit, 2);
  }

  // ----- (\d+\.?\d*)? : an optional numeral, absent when the field is empty -----

  predicate OptionalOk(o: Option<string>) {
    o.Some? ==> Unsigned(o.value)
  }

  function OptionalText(o: Option<string>): string {
    if o.None? then "" else o.value
  }

  /** `None` when the field does not match; `Some(None)` when the group is absent. */
  function MatchOptional(field: string): (r: Option<Option<string>>)
    ensures r.Some? ==> OptionalOk(r.value) && OptionalText(r.value) == field
  {
    if field == "" then Some(None)
    else if Unsigned(field) then Some(Some(field))
    else None
  }

  lemma MatchOptionalText(o: Option<string>)
    requires OptionalOk(o)
    ensures MatchOptional(OptionalText(o)) == Some(o)
  {
  }

  // ----- $GPRMC -----

  datatype RmcMatch = RmcMatch(
    time: TimeGroups,
    validity: char,
    latitude: CoordinateGroups,
    longitude: CoordinateGroups,
    speed: Option<string>,
    course: Option<string>,
    day: string,
    month: string,
    year: string,
    rest: string)

  predicate RmcOk(m: RmcMatch) {
    && TimeOk(m.time)
    && (m.validity == 'A' || m.validity == 'V')
    && CoordinateOk(m.latitude, 2, 'N', 'S')
    && CoordinateOk(m.longitude, 3, 'E', 'W')
    && OptionalOk(m.speed)
    && OptionalOk(m.course)
    && FixedDigits(m.day, 2)
    && FixedDigits(m.month, 2)
    && FixedDigits(m.year, 2)
    && |m.rest| > 0 && All(m.rest, MatchesDot)
  }

  /** The eight comma-terminated fields before the date. */
  function RmcFields(m: RmcMatch): seq<string> {
    [TimeText(m.time), [m.validity]] + CoordinateTexts(m.latitude) + CoordinateTexts(m.longitude)
    + [OptionalText(m.speed), OptionalText(m.course)]
  }

  function RmcText(m: RmcMatch): string {
    "$GPRMC," + Terminated(RmcFields(m)) + (m.day + m.month + m.year + m.rest)
  }

  /** The date and the `.+` after it. */
  predicate RmcTailOk(tail: string) {
    |tail| > 6 && All(tail[..6], IsDigit) && All(tail[6..], MatchesDot)
  }

  function MatchRmc(line: string): (r: Option<RmcMatch>)
    ensures r.Some? ==> RmcOk(r.value) && RmcText(r.value) == line
    ensures r.Some? ==> StartsWith(line, "$GPRMC,")
  {
    if !StartsWith(line, "$GPRMC,") then None
    else match TakeFields(line[7..], 8)
      case None => None
      case Some((fs, tail)) =>
        var time := MatchTime(fs[0]);
        var latitude := MatchCoordinate(fs[2], fs[3], 2, 'N', 'S');
        var longitude := MatchCoordinate(fs[4], fs[5], 3, 'E', 'W');
        var speed := MatchOptional(fs[6]);
        var course := MatchOptional(fs[7]);
        if time.Some? && (fs[1] == "A" || fs[1] == "V") && latitude.Some? && longitude.Some?
           && speed.Some? && course.Some? && RmcTailOk(tail)
        then
          var m := RmcMatch(time.value, fs[1][0], latitude.value, longitude.value, speed.value, course.value,
                            tail[..2], tail[2..4], tail[4..6], tail[6..]);
          RmcMatchIsText(line, fs, tail, m);
          Some(m)
        else None
  }

  /** The `.+` after the date needs at least one character: a line with eight
      fields after `$GPRMC,` and nothing beyond the six date digits is not an
      RMC sentence. */
  lemma RmcNeedsTextAfterDate(fs: seq<string>, tail: string)
    requires |fs| == 8 && CommaFree(fs) && |tail| <= 6
    ensures MatchRmc("$GPRMC," + Terminated(fs) + tail).None?
  {
    var line := "$GPRMC," + Terminated(fs) + tail;
    assert line[..7] == "$GPRMC," && line[7..] == Terminated(fs) + tail;
    TakeFieldsOfTerminated(fs, tail);
  }

  lemma RmcMatchIsText(line: string, fs: seq<string>, tail: string, m: RmcMatch)
    requires StartsWith(line, "$GPRMC,") && |fs| == 8 && line[7..] == Terminated(fs) + tail
    requires MatchTime(fs[0]) == Some(m.time) && (m.validity == 'A' || m.validity == 'V') && fs[1] == [m.validity]
    requires MatchCoordinate(fs[2], fs[3], 2, 'N', 'S') == Some(m.latitude)
    requires MatchCoordinate(fs[4], fs[5], 3, 'E', 'W') == Some(m.longitude)
    requires MatchOptional(fs[6]) == Some(m.speed) && MatchOptional(fs[7]) == Some(m.course)
    requires RmcTailOk(tail) && m.day == tail[..2] && m.month == tail[2..4] && m.year == tail[4..6] && m.rest == tail[6..]
    ensures RmcOk(m) && RmcText(m) == line
  {
    assert RmcFields(m) == fs;
    RmcTailParts(tail);
    assert line == "$GPRMC," + line[7..];
  }

  lemma RmcTailParts(tail: string)
    requires RmcTailOk(tail)
    ensures FixedDigits(tail[..2], 2) && FixedDigits(tail[2..4], 2) && FixedDigits(tail[4..6], 2)
    ensures |tail[6..]| > 0 && All(tail[6..], MatchesDot)
    ensures tail == tail[..2] + tail[2..4] + tail[4..6] + tail[6..]
  {
    var d := tail[..6];
    assert tail[..2] == d[..2] && tail[2..4] == d[2..4] && tail[4..6] == d[4..];
  }

  lemma RmcFieldsAt(m: RmcMatch)
    ensures var fs := RmcFields(m);
      && |fs| == 8 && fs[0] == TimeText(m.time) && fs[1] == [m.validity]
      && fs[2] == m.latitude.degrees + m.latitude.minutes && fs[3] == [m.latitude.hemisphere]
      && fs[4] == m.longitude.degrees + m.longitude.minutes && fs[5] == [m.longitude.hemisphere]
      && fs[6] == OptionalText(m.speed) && fs[7] == OptionalText(m.course)
  {
  }

  lemma RmcFieldsCommaFree(m: RmcMatch)
    requires RmcOk(m)
    ensures CommaFree(RmcFields(m))
  {
    RmcFieldsAt(m);
    TimeCommaFree(m.time);
    MinutesCommaFree(m.latitude.minutes);
    MinutesCommaFree(m.longitude.minutes);
    if m.speed.Some? {
      UnsignedCommaFree(m.speed.value);
    }
    if m.course.Some? {
      UnsignedCommaFree(m.course.value);
    }
  }

  lemma TimeCommaFree(t: TimeGroups)
    requires TimeOk(t)
    ensures ',' !in TimeText(t)
  {
    DigitsCommaFree(t.hour + t.minute + t.second);
    assert ',' !in t.fraction by {
      if !All(t.fraction, IsDigit) {
        DigitsCommaFree(t.fraction[1..]);
        assert t.fraction == "." + t.fraction[1..];
      }
    }
  }

  lemma MatchRmcText(m: RmcMatch)
    requires RmcOk(m)
    ensures MatchRmc(RmcText(m)) == Some(m)
  {
    var line := RmcText(m);
    var fs := RmcFields(m);
    var tail := m.day + m.month + m.year + m.rest;
    assert line[..7] == "$GPRMC," && line[7..] == Terminated(fs) + tail;
    RmcFieldsCommaFree(m);
    TakeFieldsOfTerminated(fs, tail);
    assert TakeFields(line[7..], 8) == Some((fs, tail));
    RmcFieldsAt(m);
    MatchTimeText(m.time);
    MatchCoordinateText(m.latitude, 2, 'N', 'S');
    MatchCoordinateText(m.longitude, 3, 'E', 'W');
    MatchOptionalText(m.speed);
    MatchOptionalText(m.course);
    RmcTailOfParts(m);
    assert m == RmcMatch(m.time, fs[1][0], m.latitude, m.longitude, m.speed, m.course,
                         tail[..2], tail[2..4], tail[4..6], tail[6..]);
  }

  lemma RmcTailOfParts(m: RmcMatch)
    requires RmcOk(m)
    ensures var tail := m.day + m.month + m.year + m.rest;
      && RmcTailOk(tail)
      && tail[..2] == m.day && tail[2..4] == m.month && tail[4..6] == m.year && tail[6..] == m.rest
  {
    var tail := m.day + m.month + m.year + m.rest;
    assert tail[..6] == m.day + m.month + m.year;
  }

  lemma DigitsCommaFree(s: string)
    requires All(s, IsDigit)
    ensures ',' !in s
  {
  }

  // ----- $GPGGA -----

  datatype GgaMatch = GgaMatch(
    time: TimeGroups,
    latitude: CoordinateGroups,
    longitude: CoordinateGroups,
    fix: char,
    satellites: string,
    hdop: string,
    altitude: string,
    separation: string,
    age: string,
    station: string,
    checksum: string)

  predicate GgaOk(m: GgaMatch) {
    && TimeOk(m.time)
    && CoordinateOk(m.latitude, 2, 'N', 'S')
    && CoordinateOk(m.longitude, 3, 'E', 'W')
    && (m.fix == '0' || m.fix == '1' || m.fix == '2')
    && Digits(m.satellites)
    && Unsigned(m.hdop)
    && Signed(m.altitude)
    && Signed(m.separation)
    && All(m.age, IsDigit)
    && All(m.station, IsDigit)
    && |m.checksum| > 0 && All(m.checksum, IsUpperHex)
  }

  /** The thirteen comma-terminated fields before the station and checksum. */
  function GgaFields(m: GgaMatch): seq<string> {
    [TimeText(m.time)] + CoordinateTexts(m.latitude) + CoordinateTexts(m.longitude)
    + [[m.fix], m.satellites, m.hdop, m.altitude, "M", m.separation, "M", m.age]
  }

  function GgaText(m: GgaMatch): string {
    "$GPGGA," + Terminated(GgaFields(m)) + (m.station + "*" + m.checksum)
  }

  /** `\d*\*[\dA-F]+`: the station and the checksum after the last comma. */
  function MatchChecksum(tail: string): (r: Option<(string, string)>)
    ensures r.Some? ==> All(r.value.0, IsDigit) && |r.value.1| > 0 && All(r.value.1, IsUpperHex)
    ensures r.Some? ==> tail == r.value.0 + "*" + r.value.1
  {
    var k := Span(tail, IsDigit);
    if k + 1 < |tail| && tail[k] == '*' && All(tail[k + 1..], IsUpperHex) then
      assert tail == tail[..k] + "*" + tail[k + 1..];
      Some((tail[..k], tail[k + 1..]))
    else None
  }

  lemma MatchChecksumText(station: string, checksum: string)
    requires All(station, IsDigit) && |checksum| > 0 && All(checksum, IsUpperHex)
    ensures MatchChecksum(station + "*" + checksum) == Some((station, checksum))
  {
    var tail := station + "*" + checksum;
    assert tail[..|station|] == station && tail[|station|] == '*' && tail[|station| + 1..] == checksum;
    SpanOfRun(tail, IsDigit, |station|);
  }

  /** The fields after the coordinates: fix, satellites, HDOP, altitude, unit, separation, unit, age. */
  predicate GgaMeasurementsOk(fs: seq<string>)
    requires |fs| == 13
  {
    && (fs[5] == "0" || fs[5] == "1" || fs[5] == "2")
    && Digits(fs[6])
    && Unsigned(fs[7])
    && Signed(fs[8])
    && fs[9] == "M"
    && Signed(fs[10])
    && fs[11] == "M"
    && All(fs[12], IsDigit)
  }

  function MatchGga(line: string): (r: Option<GgaMatch>)
    ensures r.Some? ==> GgaOk(r.value) && GgaText(r.value) == line
    ensures r.Some? ==> StartsWith(line, "$GPGGA,")
  {
    if !StartsWith(line, "$GPGGA,") then None
    else match TakeFields(line[7..], 13)
      case None => None
      case Some((fs, tail)) =>
        var time := MatchTime(fs[0]);
        var latitude := MatchCoordinate(fs[1], fs[2], 2, 'N', 'S');
        var longitude := MatchCoordinate(fs[3], fs[4], 3, 'E', 'W');
        var check := MatchChecksum(tail);
        if time.Some? && latitude.Some? && longitude.Some? && GgaMeasurementsOk(fs) && check.Some? then
          var m := GgaMatch(time.value, latitude.value, longitude.value, fs[5][0], fs[6], fs[7], fs[8], fs[10], fs[12],
                            check.value.0, check.value.1);
          GgaMatchIsText(line, fs, tail, m);
          Some(m)
        else None
  }

  /** The GGA grammar ends in a `*` and checksum digits: a line without a `*` is never a GGA sentence. */
  lemma GgaLineHasChecksum(line: string)
    ensures MatchGga(line).Some? ==> '*' in line
  {
    var r := MatchGga(line);
    if r.Some? {
      GgaTextHasStar(r.value);
    }
  }

  lemma GgaTextHasStar(m: GgaMatch)
    ensures '*' in GgaText(m)
  {
    var head := "$GPGGA," + Terminated(GgaFields(m)) + m.station;
    assert GgaText(m) == head + "*" + m.checksum;
    assert GgaText(m)[|head|] == '*';
  }

  lemma GgaMatchIsText(line: string, fs: seq<string>, tail: string, m: GgaMatch)
    requires StartsWith(line, "$GPGGA,") && |fs| == 13 && line[7..] == Terminated(fs) + tail
    requires MatchTime(fs[0]) == Some(m.time)
    requires MatchCoordinate(fs[1], fs[2], 2, 'N', 'S') == Some(m.latitude)
    requires MatchCoordinate(fs[3], fs[4], 3, 'E', 'W') == Some(m.longitude)
    requires GgaMeasurementsOk(fs) && m.fix == fs[5][0]
    requires m.satellites == fs[6] && m.hdop == fs[7] && m.altitude == fs[8] && m.separation == fs[10] && m.age == fs[12]
    requires MatchChecksum(tail) == Some((m.station, m.checksum))
    ensures GgaOk(m) && GgaText(m) == line
  {
    assert fs[5] == [m.fix];
    assert GgaOk(m);
    GgaFieldsAre(m, fs);
    assert line == "$GPGGA," + Terminated(fs) + tail;
  }

  lemma GgaFieldsAre(m: GgaMatch, fs: seq<string>)
    requires |fs| == 13 && fs[0] == TimeText(m.time)
    requires CoordinateTexts(m.latitude) == [fs[1], fs[2]] && CoordinateTexts(m.longitude) == [fs[3], fs[4]]
    requires fs[5] == [m.fix] && fs[6] == m.satellites && fs[7] == m.hdop && fs[8] == m.altitude
    requires fs[9] == "M" && fs[10] == m.separation && fs[11] == "M" && fs[12] == m.age
    ensures GgaFields(m) == fs
  {
  }

  lemma GgaFieldsAt(m: GgaMatch)
    ensures var fs := GgaFields(m);
      && |fs| == 13 && fs[0] == TimeText(m.time)
      && fs[1] == m.latitude.degrees + m.latitude.minutes && fs[2] == [m.latitude.hemisphere]
      && fs[3] == m.longitude.degrees + m.longitude.minutes && fs[4] == [m.longitude.hemisphere]
      && fs[5] == [m.fix] && fs[6] == m.satellites && fs[7] == m.hdop && fs[8] == m.altitude
      && fs[9] == "M" && fs[10] == m.separation && fs[11] == "M" && fs[12] == m.age
  {
  }

  lemma GgaFieldsCommaFree(m: GgaMatch)
    requires GgaOk(m)
    ensures CommaFree(GgaFields(m))
  {
    GgaFieldsAt(m);
    DigitsCommaFree(m.satellites);
    DigitsCommaFree(m.age);
    UnsignedCommaFree(m.hdop);
    SignedCommaFree(m.altitude);
    SignedCommaFree(m.separation);
    TimeCommaFree(m.time);
    MinutesCommaFree(m.latitude.minutes);
    MinutesCommaFree(m.longitude.minutes);
  }

  lemma MinutesCommaFree(s: string)
    requires MinutesOk(s)
    ensures ',' !in s
  {
    MinutesAreDecimal(s);
    UnsignedCommaFree(s);
  }

  lemma MatchGgaText(m: GgaMatch)
    requires GgaOk(m)
    ensures MatchGga(GgaText(m)) == Some(m)
  {
    var line := GgaText(m);
    var fs := GgaFields(m);
    var tail := m.station + "*" + m.checksum;
    assert line[..7] == "$GPGGA," && line[7..] == Terminated(fs) + tail;
    GgaFieldsCommaFree(m);
    TakeFieldsOfTerminated(fs, tail);
    GgaFieldsAt(m);
    MatchTimeText(m.time);
    MatchCoordinateText(m.latitude, 2, 'N', 'S');
    MatchCoordinateText(m.longitude, 3, 'E', 'W');
    MatchChecksumText(m.station, m.checksum);
    assert GgaMeasurementsOk(fs);
    assert TakeFields(line[7..], 13) == Some((fs, tail));
    assert m == GgaMatch(m.time, m.latitude, m.longitude, fs[5][0], fs[6], fs[7], fs[8], fs[10], fs[12], m.station, m.checksum);
  }

  lemma UnsignedCommaFree(s: string)
    requires Unsigned(s)
    ensures ',' !in s
  {
    UnsignedParts(s);
  }

  lemma SignedCommaFree(s: string)
    requires Signed(s)
    ensures ',' !in s
  {
    if Unsigned(s) {
      UnsignedCommaFree(s);
    } else {
      UnsignedCommaFree(s[1..]);
      assert s == [s[0]] + s[1..];
    }
  }
}
