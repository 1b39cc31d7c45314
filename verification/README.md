# Aspicore protocol decoder, modelled in Dafny

This project models the per-connection decoder of the Aspicore text protocol.
A device opens a connection with an `IMEI <digits>` announcement and then sends
two kinds of NMEA 0183 sentences: `$GPRMC` (recommended minimum) and `$GPGGA`
(fix data).

The decoder keeps one piece of state, the bound `deviceId`:

- An announcement that matches its grammar, and whose number the device directory resolves, binds the connection to that device. Otherwise the binding is unchanged. An announcement never yields a record.
- While a device is bound, a line that starts with `$GPRMC` or `$GPGGA` and matches that sentence's whole-line grammar becomes one position record for the bound device.
- Every other line, and every location sentence received while no device is bound, yields nothing and changes nothing.

Modules, in dependency order:

- `Options`: the `Option` type.
- `Lexical`: the regex character classes `\d`, `\s`, `[0-9A-F]` and Java's `.`; digit runs; reading and writing decimal digit strings (`NatOf`, `Numeral`).
- `Decimals`: the numerals `\d+\.?\d*` and `-?\d+\.?\d*`, and the exact value `Double.valueOf` reads from them.
- `Fields`: cutting a line into comma-terminated fields. Every field pattern of the two sentence grammars is comma-free, so a match cuts the line at its first commas.
- `Patterns`: the three grammars as whole-line recognisers. Each one returns a match datatype holding the capture groups and also the text that is read but not captured, so a match and its rendering determine each other.
- `Coordinates`: conversion of degrees and decimal minutes to signed decimal degrees.
- `Clock`: a timestamp as the calendar fields the decoder sets: 0-based month, no lenient normalisation. Also the `DDMMYY` / `HHMMSS` renderings that invert them.
- `Aspicore`: `State`, `Position` and `Decode`, one line through the decoder.
- `Connection`: `Run`, a stream of lines through one decoder, and the reference definition of the binding (the last resolved announcement).
- `Samples`: worked values.

The device directory is the parameter `lookup: string -> Option<DeviceId>`. `None` stands for a lookup that throws, or that finds no device (in the source, `getId()` on a null result throws). The wall-clock date a GGA record is stamped with is the parameter `today`. In a stream (`Connection`), every line carries its own `today` and its own `lookup`, because the directory is a shared store that is asked afresh at each announcement.

Where the documented behaviour and the code differ, the model follows the code:

- A two-digit year `YY` becomes `2000 + YY`, so `230394` is 23 March 2094, not 1994 (`Samples.CenturyOfTwoDigitYear`).
- The RMC grammar ends with `.+` after the date, so at least one character must follow the `DDMMYY` field. An RMC line that stops at the date is therefore rejected (`Patterns.RmcNeedsTextAfterDate`).
- The GGA grammar requires the `,age,station*checksum` tail. A GGA line that stops after the second `M` field is therefore rejected (`Patterns.GgaLineHasChecksum`).

## Model

| member | source | states |
|---|---|---|
| Lexical.Span | src/org/traccar/protocol/AspicoreProtocolDecoder.java:39 | the longest prefix of characters in a class, as a greedy `\s+` or `\d+` reads it: all of them are in the class, and the next one is not |
| Lexical.SpanOfRun | src/org/traccar/protocol/AspicoreProtocolDecoder.java:39 | a run of class characters followed by a character outside the class is exactly what the greedy run consumes |
| Lexical.NatOf | src/org/traccar/protocol/AspicoreProtocolDecoder.java:110-112 | the number `Integer.valueOf` reads from a digit string is below ten to the power of its length |
| Lexical.NatOfNumeral | src/org/traccar/protocol/AspicoreProtocolDecoder.java:146-148 | writing a number with enough digits and reading it back gives the number |
| Lexical.NumeralOfNatOf | src/org/traccar/protocol/AspicoreProtocolDecoder.java:146-148 | reading a digit string and writing the number at the same width gives the string back, leading zeros included |
| Lexical.NatOfAppend | src/org/traccar/protocol/AspicoreProtocolDecoder.java:118-119 | the value of concatenated digit strings is the left value shifted by the right length, plus the right value |
| Decimals.Value | src/org/traccar/protocol/AspicoreProtocolDecoder.java:48 | the value of `\d+\.?\d*` is non-negative and below the next power of ten of its integer part |
| Decimals.SignedValue | src/org/traccar/protocol/AspicoreProtocolDecoder.java:62 | a leading minus negates the value of the unsigned numeral after it, and the sign of the result follows the minus |
| Decimals.ValueIsScaledMantissa | src/org/traccar/protocol/AspicoreProtocolDecoder.java:118-119 | the value equals all the digits read as one whole number, divided by ten per fraction digit |
| Decimals.UnsignedParts | src/org/traccar/protocol/AspicoreProtocolDecoder.java:48 | a numeral is its integer digits, optionally followed by a point and the fraction digits |
| Decimals.PartsUnsigned | src/org/traccar/protocol/AspicoreProtocolDecoder.java:48 | conversely, digits, a point and digits form a numeral with exactly those parts |
| Fields.NextField | src/org/traccar/protocol/AspicoreProtocolDecoder.java:41-43 | there is a next field exactly when a comma is present; the field is comma-free, and the field, the comma and the rest rebuild the input |
| Fields.TakeFields | src/org/traccar/protocol/AspicoreProtocolDecoder.java:41-49 | a successful cut yields the requested number of comma-free fields, and the fields with their commas plus the tail rebuild the input |
| Fields.TakeFieldsOfTerminated | src/org/traccar/protocol/AspicoreProtocolDecoder.java:41-49 | cutting comma-free fields off their own rendering gives them back with the tail untouched |
| Patterns.MatchImei | src/org/traccar/protocol/AspicoreProtocolDecoder.java:38-39 | a match is well formed (a non-empty whitespace separator, then a non-empty digit run) and renders back to the line, which starts with `IMEI` |
| Patterns.MatchImeiText | src/org/traccar/protocol/AspicoreProtocolDecoder.java:38-39 | every well-formed announcement is matched, with exactly its separator and number |
| Patterns.MatchTime | src/org/traccar/protocol/AspicoreProtocolDecoder.java:42 | a time field matches as two-digit hour, minute and second groups plus a dropped `\.?\d*` fraction, and renders back to the field |
| Patterns.MatchTimeText | src/org/traccar/protocol/AspicoreProtocolDecoder.java:42 | every well-formed time field is matched with exactly its groups |
| Patterns.MatchCoordinate | src/org/traccar/protocol/AspicoreProtocolDecoder.java:44-47 | a coordinate has a fixed-width degree group, a `\d{2}\.\d+` minutes group and one of the two hemisphere letters, and its two fields render back |
| Patterns.MatchCoordinateText | src/org/traccar/protocol/AspicoreProtocolDecoder.java:44-47 | every well-formed coordinate is matched with exactly its groups |
| Patterns.MinutesAreDecimal | src/org/traccar/protocol/AspicoreProtocolDecoder.java:44 | a minutes group is an unsigned numeral with a two-digit integer part |
| Patterns.MatchOptional | src/org/traccar/protocol/AspicoreProtocolDecoder.java:48-49 | an empty field is an absent group, and a non-empty one must be a numeral |
| Patterns.MatchOptionalText | src/org/traccar/protocol/AspicoreProtocolDecoder.java:48-49 | every absent or well-formed optional group is read back unchanged |
| Patterns.MatchRmc | src/org/traccar/protocol/AspicoreProtocolDecoder.java:40-51 | a whole-line RMC match is well formed, renders back to the line, and the line starts with `$GPRMC,` |
| Patterns.RmcNeedsTextAfterDate | src/org/traccar/protocol/AspicoreProtocolDecoder.java:50-51 | a line of `$GPRMC,`, eight comma-terminated fields and at most six more characters is not an RMC sentence, because `.+` needs a character after the date |
| Patterns.RmcMatchIsText | src/org/traccar/protocol/AspicoreProtocolDecoder.java:40-51 | groups read from eight comma-cut fields and a date tail form a well-formed match that renders back to the line |
| Patterns.MatchRmcText | src/org/traccar/protocol/AspicoreProtocolDecoder.java:40-51 | every well-formed RMC match is found again in its own rendering, so matching and rendering are inverse |
| Patterns.RmcTailParts | src/org/traccar/protocol/AspicoreProtocolDecoder.java:50-51 | the tail after the eighth comma splits into day, month and year digit pairs plus a non-empty remainder |
| Patterns.MatchGga | src/org/traccar/protocol/AspicoreProtocolDecoder.java:52-69 | a whole-line GGA match is well formed, renders back to the line, and the line starts with `$GPGGA,` |
| Patterns.GgaMatchIsText | src/org/traccar/protocol/AspicoreProtocolDecoder.java:52-69 | groups read from thirteen comma-cut fields and a checksum tail form a well-formed match that renders back to the line |
| Patterns.MatchGgaText | src/org/traccar/protocol/AspicoreProtocolDecoder.java:52-69 | every well-formed GGA match is found again in its own rendering, so matching and rendering are inverse |
| Patterns.MatchChecksum | src/org/traccar/protocol/AspicoreProtocolDecoder.java:68-69 | the tail is station digits, a `*`, and non-empty upper-case hex digits that are shape-checked only |
| Patterns.MatchChecksumText | src/org/traccar/protocol/AspicoreProtocolDecoder.java:68-69 | every well-formed station and checksum pair is read back unchanged |
| Patterns.GgaLineHasChecksum | src/org/traccar/protocol/AspicoreProtocolDecoder.java:69 | a line without a `*` is never a GGA sentence |
| Coordinates.ToDecimalDegrees | src/org/traccar/protocol/AspicoreProtocolDecoder.java:118-127 | the magnitude is degrees plus minutes over 60, negated exactly for the southern or western letter, with the sign following the letter |
| Coordinates.DecimalDegreesBound | src/org/traccar/protocol/AspicoreProtocolDecoder.java:118-127 | the magnitude stays below the degree limit plus the largest minutes over 60 |
| Clock.SentenceDate | src/org/traccar/protocol/AspicoreProtocolDecoder.java:146-148 | the day is DD, the 0-based month index is MM - 1, and the year is 2000 + YY |
| Clock.At | src/org/traccar/protocol/AspicoreProtocolDecoder.java:109-112 | a cleared calendar set to hour, minute and second has no milliseconds |
| Clock.DateTextOfSentenceDate | src/org/traccar/protocol/AspicoreProtocolDecoder.java:146-148 | reading a `DDMMYY` field into a date and writing it back gives the same six digits |
| Clock.SentenceDateOfDateText | src/org/traccar/protocol/AspicoreProtocolDecoder.java:146-148 | writing a date of this century as `DDMMYY` and reading it back gives the same date |
| Clock.TimeOfDayTextOfAt | src/org/traccar/protocol/AspicoreProtocolDecoder.java:110-112 | reading `HHMMSS` into a time and writing it back gives the same digits |
| Aspicore.MinutesValue | src/org/traccar/protocol/AspicoreProtocolDecoder.java:119 | a minutes group's value lies in [0, 100) |
| Aspicore.Latitude | src/org/traccar/protocol/AspicoreProtocolDecoder.java:118-121 | the latitude is negated exactly for `S`, its magnitude is DD + MM.mmm/60, and it stays below 99 + 100/60; it stays within ±90 when the degrees are below 90 and the minutes below 60 |
| Aspicore.Longitude | src/org/traccar/protocol/AspicoreProtocolDecoder.java:124-127 | the longitude is negated exactly for `W`, its magnitude is DDD + MM.mmm/60, and it stays below 999 + 100/60; it stays within ±180 when the degrees are below 180 and the minutes below 60 |
| Aspicore.OptionalValue | src/org/traccar/protocol/AspicoreProtocolDecoder.java:130-143 | an absent speed or course is 0.0, and a present one is its numeral's value |
| Aspicore.RmcDate | src/org/traccar/protocol/AspicoreProtocolDecoder.java:146-148 | the RMC date is day DD, month index MM - 1, year 2000 + YY, and it writes back to the same `DDMMYY` |
| Aspicore.TimeOn | src/org/traccar/protocol/AspicoreProtocolDecoder.java:108-112 | the time of day has no milliseconds, the fraction is dropped, and it writes back to the sentence's `HHMMSS` |
| Aspicore.RmcPosition | src/org/traccar/protocol/AspicoreProtocolDecoder.java:101-155 | an RMC record belongs to the bound device and is valid exactly for `A`; it has the sentence's coordinates, speed and course (0.0 when absent), altitude 0.0, and a time that writes back to the sentence's date and time digits |
| Aspicore.GgaPosition | src/org/traccar/protocol/AspicoreProtocolDecoder.java:168-216 | a GGA record belongs to the bound device and is valid exactly when the fix digit is not `0`; its altitude is the geoid height plus the separation, speed and course are 0.0, and it is dated `today` |
| Aspicore.Announced | src/org/traccar/protocol/AspicoreProtocolDecoder.java:80-89 | a line announces a device exactly when it matches the `IMEI` grammar and the directory resolves its number; the device is the one the directory gives, and such a line starts with `IMEI`, so no location or unrecognised line rebinds |
| Aspicore.Decode | src/org/traccar/protocol/AspicoreProtocolDecoder.java:76-219 | only a resolved announcement changes the binding; a record comes out exactly when a device is bound and the line is a complete RMC or GGA sentence; a record belongs to the bound device and leaves the state alone; an `IMEI` line never yields a record |
| Aspicore.PrefixesExclusive | src/org/traccar/protocol/AspicoreProtocolDecoder.java:78-92 | a line that starts with `$GPRMC,` or `$GPGGA,` takes only its own branch of the prefix dispatch |
| Aspicore.AnnouncementRebinds | src/org/traccar/protocol/AspicoreProtocolDecoder.java:78-90 | a well-formed announcement binds the device the directory gives, keeps the old binding when the lookup fails, and yields no record |
| Aspicore.RmcSentenceDecodes | src/org/traccar/protocol/AspicoreProtocolDecoder.java:92-155 | every well-formed RMC sentence yields its record while a device is bound, yields nothing while unbound, and leaves the state alone |
| Aspicore.GgaSentenceDecodes | src/org/traccar/protocol/AspicoreProtocolDecoder.java:159-216 | every well-formed GGA sentence yields its record while a device is bound, yields nothing while unbound, and leaves the state alone |
| Aspicore.IgnoredLines | src/org/traccar/protocol/AspicoreProtocolDecoder.java:217-219 | an unrecognised line, or a location sentence while unbound, changes nothing and yields nothing |
| Aspicore.RecordCoordinatesBounded | src/org/traccar/protocol/AspicoreProtocolDecoder.java:118-127 | every record's coordinates lie within the magnitudes the grammar admits; there is no further range check |
| Connection.Run | src/org/traccar/protocol/AspicoreProtocolDecoder.java:32 | one result per line, with the state carried from line to line and each line decoded against the directory and date of its own moment |
| Connection.LatestBindingFront | src/org/traccar/protocol/AspicoreProtocolDecoder.java:86 | the back-to-front reference binding agrees with decoding the first line and continuing |
| Connection.LastAnnouncementWins | src/org/traccar/protocol/AspicoreProtocolDecoder.java:84-89 | after any stream, the binding is the device of the last resolved announcement, or the starting binding if there is none |
| Connection.RunConcat | src/org/traccar/protocol/AspicoreProtocolDecoder.java:32 | decoding a stream in two pieces, with the state handed over, is decoding it at once |
| Connection.RecordAt | src/org/traccar/protocol/AspicoreProtocolDecoder.java:32 | the i-th record is what the decoder makes of line i in the state the earlier lines left |
| Connection.RecordOwner | src/org/traccar/protocol/AspicoreProtocolDecoder.java:92-170 | a line yields a record exactly when the earlier lines bound a device and the line is a complete location sentence; the record carries that device |
| Connection.NoAnnouncementKeepsBinding | src/org/traccar/protocol/AspicoreProtocolDecoder.java:86 | without a resolved announcement the binding stays as it was |
| Connection.SilentUntilAnnounced | src/org/traccar/protocol/AspicoreProtocolDecoder.java:92-98 | on a fresh connection, no line yields a record before an announcement has resolved |
| Samples.CenturyOfTwoDigitYear | src/org/traccar/protocol/AspicoreProtocolDecoder.java:146-148 | the date field `230394` is 23 March 2094 |
| Samples.AltitudeAddsSeparation | src/org/traccar/protocol/AspicoreProtocolDecoder.java:205-206 | a geoid height of `100.0` and a separation of `-17.0` give an altitude of 83.0 |
| Samples.HemisphereSign | src/org/traccar/protocol/AspicoreProtocolDecoder.java:118-120 | 27° 39' is 27.65 in the north and -27.65 in the south |

## Left out

- Transport: the channel context, the channel, the cast of the message to a string, and the framework base class are not modelled. `Decode` receives the line directly.
- Device directory: `getDataManager().getDeviceByImei` is the `lookup` parameter. An exception, or a null device, is `None`.
- Clock: the GGA branch reads the current UTC date from the system clock. The model passes it in as `today`.
- Clock: the calendar's lenient normalisation and the conversion to epoch milliseconds are not modelled. A timestamp is the tuple of calendar fields the decoder sets.
- Aspicore.TimeOn: the hour goes into the calendar's 12-hour `HOUR` field, not `HOUR_OF_DAY`. After a clear the half-day is AM, so hours 0-23 denote the same instant; the model keeps the hour as written and does not resolve the field.
- Aspicore.RmcPosition: an out-of-range month, day or hour stays as written, where the lenient calendar would roll it over.
- Floating point: `Double.valueOf`, the division by 60 and the altitude sum are exact reals in the model. There is no binary rounding and no negative zero.
- Output: the `ExtendedInfoFormatter` XML holds only the protocol name. A record carries that name as `protocol`.
- Logging: none is modelled.
- Checksum: the NMEA checksum is only shape-checked by the grammar. Its value is not verified, in the code or in the model.
