/**
 The per-connection Aspicore decoder: an `IMEI` announcement binds the
 connection to a device, and `$GPRMC` / `$GPGGA` sentences received while a
 device is bound become position records for it.

 The decoder's mutable `deviceId` field is an explicit `State` passed in and
 returned; the device directory and the wall-clock date are parameters.
 */
module Aspicore {
  import opened Options
  import opened Lexical
  import opened Decimals
  import opened Patterns
  import opened Coordinates
  import opened Clock

  /** A device's key in the directory (a Java `Long`). */
  type DeviceId = int

  /** The device directory: the id registered for an IMEI, or `None` when the
      lookup finds nothing or throws. */
  type Directory = string -> Option<DeviceId>

  /** The decoder's only state: the device the connection is bound to. */
  datatype State = State(deviceId: Option<DeviceId>)

  /** A connection starts unbound. */
  const Unbound: State := State(None)

  /** The protocol name every record carries. */
  const Protocol: string := "aspicore"

  datatype Position = Position(
    deviceId: DeviceId,
    time: Timestamp,
    valid: bool,
    latitude: real,
    longitude: real,
    speed: real,
    course: real,
    altitude: real,
    protocol: string)

  /** The state after a line, and the record it produced if any. */
  datatype Outcome = Outcome(state: State, record: Option<Position>)

  /** The value of a minutes group (`\d{2}\.\d+`). */
  function MinutesValue(s: string): (v: real)
    requires MinutesOk(s)
    ensures 0.0 <= v < 100.0
  {
    MinutesAreDecimal(s);
    Value(s)
  }

  /** Latitude from `DD`, `MM.mmmm` and `N`/`S`. With two degree digits the
      magnitude is below 99 + 100/60; it is below 90 when the degrees and
      minutes are in their real-world ranges. */
  function Latitude(c: CoordinateGroups): (r: real)
    requires CoordinateOk(c, 2, 'N', 'S')
    ensures (if c.hemisphere == 'S' then -r else r) == NatOf(c.degrees) as real + MinutesValue(c.minutes) / 60.0
    ensures -(99.0 + 100.0 / 60.0) < r < 99.0 + 100.0 / 60.0
    ensures NatOf(c.degrees) < 90 && MinutesValue(c.minutes) < 60.0 ==> -90.0 < r < 90.0
  {
    var degrees, minutes := NatOf(c.degrees), MinutesValue(c.minutes);
    DecimalDegreesBound(degrees, minutes, c.hemisphere, 'S', 99, 100.0);
    if degrees < 90 && minutes < 60.0 then
      DecimalDegreesBound(degrees, minutes, c.hemisphere, 'S', 89, 60.0);
      ToDecimalDegrees(degrees, minutes, c.hemisphere, 'S')
    else
      ToDecimalDegrees(degrees, minutes, c.hemisphere, 'S')
  }

  /** Longitude from `DDD`, `MM.mmmm` and `E`/`W`. With three degree digits the
      magnitude is below 999 + 100/60; it is below 180 when the degrees and
      minutes are in their real-world ranges. */
  function Longitude(c: CoordinateGroups): (r: real)
    requires CoordinateOk(c, 3, 'E', 'W')
    ensures (if c.hemisphere == 'W' then -r else r) == NatOf(c.degrees) as real + MinutesValue(c.minutes) / 60.0
    ensures -(999.0 + 100.0 / 60.0) < r < 999.0 + 100.0 / 60.0
    ensures NatOf(c.degrees) < 180 && MinutesValue(c.minutes) < 60.0 ==> -180.0 < r < 180.0
  {
    var degrees, minutes := NatOf(c.degrees), MinutesValue(c.minutes);
    DecimalDegreesBound(degrees, minutes, c.hemisphere, 'W', 999, 100.0);
    if degrees < 180 && minutes < 60.0 then
      DecimalDegreesBound(degrees, minutes, c.hemisphere, 'W', 179, 60.0);
      ToDecimalDegrees(degrees, minutes, c.hemisphere, 'W')
    else
      ToDecimalDegrees(degrees, minutes, c.hemisphere, 'W')
  }

  /** An optional speed or course: the transmitted value, or 0 when the field is empty. */
  function OptionalValue(o: Option<string>): (v: real)
    requires OptionalOk(o)
    ensures o.None? ==> v == 0.0
    ensures o.Some? ==> v == Value(o.value)
  {
    match o
    case None => 0.0
    case Some(s) => Value(s)
  }

  /** The date written in an RMC sentence's `DDMMYY` digits; it writes back to the same digits. */
  function RmcDate(dd: string, mm: string, yy: string): (d: Date)
    requires FixedDigits(dd, 2) && FixedDigits(mm, 2) && FixedDigits(yy, 2)
    ensures d.year == Century + NatOf(yy) && d.month == NatOf(mm) - 1 && d.day == NatOf(dd)
    ensures DateText(d) == dd + mm + yy
  {
    DateTextOfSentenceDate(dd, mm, yy);
    SentenceDate(NatOf(dd), NatOf(mm), NatOf(yy))
  }

  /** The time field's whole seconds on `date`; the fractional seconds are dropped. */
  function TimeOn(date: Date, t: TimeGroups): (ts: Timestamp)
    requires TimeOk(t)
    ensures ts.date == date && ts.millisecond == 0
    ensures 0 <= ts.hour < 100 && 0 <= ts.minute < 100 && 0 <= ts.second < 100
    ensures TimeOfDayText(ts) == t.hour + t.minute + t.second
  {
    TimeOfDayTextOfAt(date, t.hour, t.minute, t.second);
    At(date, NatOf(t.hour), NatOf(t.minute), NatOf(t.second))
  }

  /** The record an RMC sentence yields for the bound device. */
  function RmcPosition(m: RmcMatch, id: DeviceId): (p: Position)
    requires RmcOk(m)
    ensures p.deviceId == id && p.protocol == Protocol
    ensures p.valid <==> m.validity == 'A'
    ensures p.latitude == Latitude(m.latitude) && p.longitude == Longitude(m.longitude)
    ensures p.speed == OptionalValue(m.speed) && p.course == OptionalValue(m.course)
    ensures p.altitude == 0.0
    ensures p.time == TimeOn(RmcDate(m.day, m.month, m.year), m.time)
  {
    Position(
      id,
      TimeOn(RmcDate(m.day, m.month, m.year), m.time),
      m.validity == 'A',
      Latitude(m.latitude),
      Longitude(m.longitude),
      OptionalValue(m.speed),
      OptionalValue(m.course),
      0.0,
      Protocol)
  }

  /** The record a GGA sentence yields for the bound device, dated `today`. */
  function GgaPosition(m: GgaMatch, id: DeviceId, today: Date): (p: Position)
    requires GgaOk(m)
    ensures p.deviceId == id && p.protocol == Protocol
    ensures p.valid <==> m.fix != '0'
    ensures p.latitude == Latitude(m.latitude) && p.longitude == Longitude(m.longitude)
    ensures p.altitude == SignedValue(m.altitude) + SignedValue(m.separation)
    ensures p.speed == 0.0 && p.course == 0.0
    ensures p.time == TimeOn(today, m.time)
  {
    Position(
      id,
      TimeOn(today, m.time),
      m.fix != '0',
      Latitude(m.latitude),
      Longitude(m.longitude),
      0.0,
      0.0,
      SignedValue(m.altitude) + SignedValue(m.separation),
      Protocol)
  }

  /** The device an `IMEI` line binds: `Some` when the line matches and the directory resolves the number. */
  function Announced(line: string, lookup: Directory): (r: Option<DeviceId>)
    ensures r.Some? ==> StartsWith(line, "IMEI") && MatchImei(line).Some?
    ensures MatchImei(line).Some? ==> r == lookup(MatchImei(line).value.imei)
  {
    match MatchImei(line)
    case None => None
    case Some(m) => lookup(m.imei)
  }

  /** One line through the decoder.
      - Only a resolved announcement changes the binding, and the latest one wins.
      - A record is produced exactly when a device is bound and the line is a
        complete RMC or GGA sentence; it always belongs to the bound device.
      - An `IMEI` line never produces a record. */
  function Decode(st: State, line: string, lookup: Directory, today: Date): (out: Outcome)
    ensures out.state.deviceId == (if Announced(line, lookup).Some? then Announced(line, lookup) else st.deviceId)
    ensures out.record.Some? <==> st.deviceId.Some? && (MatchRmc(line).Some? || MatchGga(line).Some?)
    ensures out.record.Some? ==> st.deviceId == Some(out.record.value.deviceId) && out.state == st
    ensures StartsWith(line, "IMEI") ==> out.record.None?
  {
    PrefixesExclusive(line);
    if StartsWith(line, "IMEI") then
      Outcome(if Announced(line, lookup).Some? then State(Announced(line, lookup)) else st, None)
    else if StartsWith(line, "$GPRMC") && st.deviceId.Some? then
      match MatchRmc(line)
      case None => Outcome(st, None)
      case Some(m) => Outcome(st, Some(RmcPosition(m, st.deviceId.value)))
    else if StartsWith(line, "$GPGGA") && st.deviceId.Some? then
      match MatchGga(line)
      case None => Outcome(st, None)
      case Some(m) => Outcome(st, Some(GgaPosition(m, st.deviceId.value, today)))
    else
      Outcome(st, None)
  }

  /** The three sentence kinds are told apart by their first letters. */
  lemma PrefixesExclusive(line: string)
    ensures StartsWith(line, "$GPRMC,") ==> StartsWith(line, "$GPRMC") && !StartsWith(line, "IMEI") && !StartsWith(line, "$GPGGA")
    ensures StartsWith(line, "$GPGGA,") ==> StartsWith(line, "$GPGGA") && !StartsWith(line, "IMEI") && !StartsWith(line, "$GPRMC")
  {
    if |line| >= 7 {
      assert line[..6] == line[..7][..6];
      assert line[..4][0] == line[0] == line[..7][0];
      assert line[..6][3] == line[3] == line[..7][3];
    }
  }

  /** An announcement line binds the device the directory gives for its number,
      keeps the old binding when the directory gives none, and never yields a record. */
  lemma AnnouncementRebinds(st: State, m: ImeiMatch, lookup: Directory, today: Date)
    requires ImeiOk(m)
    ensures var out := Decode(st, ImeiText(m), lookup, today);
      && out.record.None?
      && out.state == (if lookup(m.imei).Some? then State(lookup(m.imei)) else st)
  {
    MatchImeiText(m);
  }

  /** A complete RMC sentence yields its record for the bound device, and nothing while unbound. */
  lemma RmcSentenceDecodes(st: State, m: RmcMatch, lookup: Directory, today: Date)
    requires RmcOk(m)
    ensures Decode(st, RmcText(m), lookup, today)
         == Outcome(st, if st.deviceId.Some? then Some(RmcPosition(m, st.deviceId.value)) else None)
  {
    MatchRmcText(m);
    PrefixesExclusive(RmcText(m));
  }

  /** A complete GGA sentence yields its record for the bound device, and nothing while unbound. */
  lemma GgaSentenceDecodes(st: State, m: GgaMatch, lookup: Directory, today: Date)
    requires GgaOk(m)
    ensures Decode(st, GgaText(m), lookup, today)
         == Outcome(st, if st.deviceId.Some? then Some(GgaPosition(m, st.deviceId.value, today)) else None)
  {
    MatchGgaText(m);
    PrefixesExclusive(GgaText(m));
  }

  /** A line of any other kind, or a location sentence while no device is bound,
      changes nothing and yields nothing. */
  lemma IgnoredLines(st: State, line: string, lookup: Directory, today: Date)
    requires !StartsWith(line, "IMEI")
    requires st.deviceId.None? || (!StartsWith(line, "$GPRMC") && !StartsWith(line, "$GPGGA"))
    ensures Decode(st, line, lookup, today) == Outcome(st, None)
  {
    PrefixesExclusive(line);
  }

  /** Every record the decoder produces has coordinates inside the ranges the
      grammar allows; no further range check is made. */
  lemma RecordCoordinatesBounded(st: State, line: string, lookup: Directory, today: Date)
    ensures var out := Decode(st, line, lookup, today);
      out.record.Some? ==>
        && -(99.0 + 100.0 / 60.0) < out.record.value.latitude < 99.0 + 100.0 / 60.0
        && -(999.0 + 100.0 / 60.0) < out.record.value.longitude < 999.0 + 100.0 / 60.0
  {
  }
}
