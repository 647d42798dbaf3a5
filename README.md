# php-igc decoder, modelled in Dafny

php-igc reads an IGC flight-recorder file (the line-based format of the FAI/IGC
Technical Specification for GNSS Flight Recorders, Appendix A). Each line becomes
a record object chosen by the line's first character: A (flight recorder id),
B (fix), C (task), D (differential GPS), E (event), F (satellites), G (security),
H (header), I and J (extension definitions), K (extension data) and L (log book).
The file object keeps the list of records. It can fold the B records' pressure
altitudes into a maximum and a minimum altitude. It also names the recorder's
manufacturer from a one-character code.

The model has one module per source unit:

- `Text` holds PHP's `substr` as a clamped slice (`Sub`, `SubFrom`), `explode`
  on one character, ASCII upper-casing and decimal digit values. `Optional`
  holds the `Option` type. None stands for PHP's `null` or `false`.
- `Fields` holds the time triple, the coordinate parts and the conversion of a
  coordinate to signed decimal degrees, as an exact `real`.
- `BRecord`, `HRecord` and `IRecord` hold the decoders of `lib/IGC_B_Record.php`,
  `lib/IGC_H_Record.php` and `lib/IGC_I_Record.php`. The I decoder serves J as
  well, since J has the same layout.
- `Records` holds the record sum type and the decoders of A, C, D, E, G and L.
  It also holds `GetRecord`, which dispatches on the upper-cased first character.
- `Igc` holds the file object `IgcFile`, the altitude fold `setDetails` and the
  manufacturer table.

`release/PHP_IGC-0.1.php` repeats the classes of `lib/` line for line. Each
decoder is modelled once. Below the file headers the two copies line up at a
fixed distance: a line of `lib/IGC_B_Record.php` is 466 lines further down in
the release file, one of `lib/IGC_H_Record.php` 319, one of
`lib/IGC_I_Record.php` 377 and one of `lib/PHP_IGC.php` 21. Rows that cite
`lib/` therefore cover the release copy at those lines as well; the classes
that exist only in the release file (A, C, D, E, F, G, J, K and L) are cited
there directly.

Where the code and the format description differ, the model follows the code:

- The B record reads fix validity at offset 25. It reads the pressure altitude
  at 26..30, the GPS altitude at 31..35 and the fix accuracy at 36..38. The
  format puts validity at offset 24, which the decoder skips.
- The B, D, E and J constructors store the undefined variable `$string` in `raw`,
  so their `raw` is null.
- The F and K constructors are spelled `__consruct`. They never run, so F and K
  records carry no fields, not even `type`. K's body would have tagged K records
  as 'F'.
- An H line whose text from offset 4 has no ':' gets a null value; it is not an
  error. On PHP 5 and 7 no decoder ever fails: a short line gives short or empty
  fields. On PHP 8, arithmetic on a string that is not numeric throws a
  TypeError, and the B constructor divides the joined minutes text by 60
  (lib/IGC_B_Record.php:88 and 99). A B line of 18 characters or fewer
  therefore throws there ("." / 60), and `getRecord` and the file constructor
  stop with it.

## Model

| member | source | states |
|---|---|---|
| `Text.ExplodeJoin` | lib/IGC_H_Record.php:59 | PHP `explode` on one character: no part holds the separator, joining the parts with the separator gives the input back, and there is one part exactly when the separator does not occur |
| `Text.Sub` | lib/IGC_H_Record.php:55-56 | PHP `substr` with a start and a length: the characters from the start, as many as the length when they fit, the rest of the string when it ends inside, and nothing past the end |
| `Text.Upper` | lib/PHP_IGC.php:87 | `strtoupper` on one ASCII character: a lower-case letter becomes its capital, every other character is unchanged, and the result is never lower-case |
| `Fields.ReadClock` | lib/IGC_B_Record.php:75-77 | hours, minutes and seconds are the `substr` slices at the offset, 2 further on and 4 further on: together they are the six characters there, and each is exactly as long as its clamped two-character slice, so full width on a long enough line and shorter or empty where the line ends (release 541-543) |
| `Fields.ReadAngle` | lib/IGC_B_Record.php:82-85 | degrees, minutes, decimal minutes and direction are the adjacent `substr` slices of widths w, 2, 3 and 1: together the w + 6 characters at the offset, each exactly as long as its clamped slice (longitude: lines 93-96; release 548-551 and 559-562) |
| `Fields.ClockAtUnique` | lib/IGC_B_Record.php:75-77 | the six characters and the three clamped slice lengths leave exactly one time triple, the one `ReadClock` reads |
| `Fields.AngleAtUnique` | lib/IGC_B_Record.php:82-85 | the text and the four clamped slice lengths leave exactly one coordinate, the one `ReadAngle` reads (longitude: lines 93-96) |
| `Fields.DecimalDegrees` | lib/IGC_B_Record.php:87-89 | defined exactly when the parts are digits with 2-digit minutes and 3-digit decimal minutes; then the value is (degrees*60000 + minutes*1000 + decimal minutes)/60000, negated exactly when the direction is the negative hemisphere, and non-negative for every other direction (longitude: lines 98-100; release 553-555 and 564-566) |
| `Fields.MinutesBelowOneDegree` | lib/IGC_B_Record.php:88 | with minutes at most 59, the magnitude lies in [degrees, degrees + 1) |
| `Fields.LatitudeInRange` | lib/IGC_B_Record.php:87-89 | a latitude of at most 89 degrees and 59 minutes lies strictly between -90 and 90 |
| `Fields.LongitudeInRange` | lib/IGC_B_Record.php:98-100 | a longitude of at most 179 degrees and 59 minutes lies strictly between -180 and 180 |
| `BRecord.ReadExtension` | lib/IGC_B_Record.php:106-115 | fixed validity, pressure altitude, GPS altitude and fix accuracy are the slices at 25, 26..30, 31..35 and 36..38: together the fourteen characters from 25, each exactly as long as its clamped slice, so a line ending early shortens or empties the later fields (release 572-581) |
| `BRecord.ExtensionAtUnique` | lib/IGC_B_Record.php:106-115 | the fourteen characters and the four clamped slice lengths leave exactly one set of extended data, the one `ReadExtension` reads |
| `BRecord.Decode` | lib/IGC_B_Record.php:70-117 | time read at 1, latitude at 7 and longitude at 15 as `ReadClock` and `ReadAngle` specify them; the decimal degrees are `DecimalDegrees` of the parts read, negative for S and W, and present exactly when the parts are complete; the extended data is present exactly when the line is longer than 25 characters and is then read as `ReadExtension` specifies (release 536-583) |
| `BRecord.DecodeEncode` | lib/IGC_B_Record.php:70-117 | every well-formed fix written back at the offsets the decoder reads decodes to itself, whatever character fills the skipped offset 24 |
| `BRecord.EncodeDecode` | lib/IGC_B_Record.php:70-117 | a B line of 25 or 39 characters is rebuilt exactly from its decoded fix and its offset-24 character, so nothing else of the line is lost |
| `BRecord.DecodeIgnoresTail` | lib/IGC_B_Record.php:103-116 | characters after offset 38, such as the line terminator, do not change the fix |
| `BRecord.TerminatedShortFix` | lib/IGC_B_Record.php:103-116 | a 25-character fix followed by CR LF (27 characters) gets fixed validity CR, pressure altitude LF, and empty GPS altitude and fix accuracy |
| `BRecord.DecodeIgnoresLetter` | lib/IGC_B_Record.php:75-115 | the decoder never reads offset 0 |
| `BRecord.ExampleFix` | lib/IGC_B_Record.php:103-116 | the 40-character line `B1012285247630N00640055WA001930019600309` decodes to 10:12:28, 52 degrees 47.630 minutes north, 6 degrees 40.055 minutes west (negative), fixed validity "0", pressure "01930", GPS "01960" and accuracy "030"; the final "9" is not read |
| `HRecord.Decode` | lib/IGC_H_Record.php:50-57 | source and mnemonic are the adjacent slices at 1 and 2..4: together the four characters there, the source exactly as long as its one-character slice and the mnemonic as its three-character slice (release 369-376) |
| `HRecord.SourceAndMnemonic` | lib/IGC_H_Record.php:55-56 | a source character and a three-character mnemonic written after any letter decode back, whatever follows |
| `HRecord.KeyAndValue` | lib/IGC_H_Record.php:58-61 | the key is the text from offset 4 up to the first ':'; the value is null exactly when that text has no ':', and the key is then all of it; otherwise the value is the text between the first and the second ':', and what follows a second ':' is dropped (release 378-381) |
| `HRecord.KeyOverlapsMnemonic` | lib/IGC_H_Record.php:56-60 | when the character at offset 4 is not ':', the key starts with it, and it also ends the mnemonic |
| `HRecord.DecodeIgnoresLetter` | lib/IGC_H_Record.php:55-61 | the decoder never reads offset 0 |
| `IRecord.Decode` | lib/IGC_I_Record.php:41-49 | start byte, finish byte and mnemonic are adjacent slices at 1..2, 3..4 and 5..7, each exactly as wide as PHP's substr makes its slot, so the split is fixed even on a short line such as "I00" and a line feed (release 418-426; J: release 462-470) |
| `IRecord.CountOnly` | lib/IGC_I_Record.php:41-49 | a 4-character line such as "I00" and a line feed gives the count as start byte, the line ending as finish byte and an empty mnemonic (release 418-426) |
| `IRecord.DecodeEncode` | lib/IGC_I_Record.php:46-48 | three fields of widths 2, 2 and 3 written after any record letter decode back, whatever follows |
| `IRecord.DecodeIgnoresLetter` | lib/IGC_I_Record.php:46-48 | the decoder never reads offset 0 |
| `Records.DecodeA` | release/PHP_IGC-0.1.php:289-297 | manufacturer at 1 and unique id at 2..6, each exactly as wide as PHP's substr makes it on any line length; the id extension runs from 6 on, so it shares its first character with the unique id's last |
| `Records.TurningPointTest` | release/PHP_IGC-0.1.php:653 | the turning-point regular expression matches the text from offset 1 exactly when offsets 1..7 and 9..16 are digits, offset 8 is N, S or '\|' and offset 17 is E, W or '\|' |
| `Records.ReadDate` | release/PHP_IGC-0.1.php:674-676 | day, month and year are the two-character slices at the offset, 2 further on and 4 further on: together the six characters there, each exactly as long as its clamped slice (flight date: lines 683-685) |
| `Records.ReadTurningPoint` | release/PHP_IGC-0.1.php:655-670 | latitude read at 1 with 2-character degrees and longitude at 9 with 3-character degrees, as `ReadAngle` specifies them; with the comment they are the text after the letter |
| `Records.ReadNewTask` | release/PHP_IGC-0.1.php:673-691 | declared date at 1, declared time at 7, flight date at 13, task id at 19..22 and turn-point count at 23..24, each exactly as long as its clamped slice; with the comment they are the text after the letter |
| `Records.DecodeC` | release/PHP_IGC-0.1.php:647-693 | `raw` is the line; a turning point exactly when the line has the turning-point shape, otherwise a new task; the task's parts in line order are the text after the letter, with the coordinates read at 1 and 9 as `ReadAngle` specifies them, or the dates at 1 and 13, the time at 7, the task id at 19..22 and the turn-point count at 23..24 each exactly as long as its clamped slice |
| `Records.TurningPointEncode` | release/PHP_IGC-0.1.php:653-670 | a turning point with full-width coordinates, written after any letter so that the line has the turning-point shape, decodes back to itself |
| `Records.NewTaskEncode` | release/PHP_IGC-0.1.php:673-691 | a new task with full-width dates, time, task id and turn-point count, written after any letter so that the line lacks the turning-point shape, decodes back to itself |
| `Records.DecodeD` | release/PHP_IGC-0.1.php:723-730 | GPS qualifier at 1 and station id at 2..5, each exactly as long as its clamped slice; `raw` is null |
| `Records.DecodeE` | release/PHP_IGC-0.1.php:768-779 | time read at 1 as `ReadClock` specifies, a mnemonic exactly as long as its slice at 7..9 and the comment the rest of the line from 10; `raw` is null |
| `Records.EventEncode` | release/PHP_IGC-0.1.php:773-778 | a full-width time, a three-character mnemonic and any comment written after any letter decode back |
| `Records.DecodeG` | release/PHP_IGC-0.1.php:320-326 | the security code is the whole line after its letter |
| `Records.DecodeL` | release/PHP_IGC-0.1.php:895-902 | the manufacturer is exactly as long as its slice at 1, and the letter, the manufacturer and the comment rebuild the line |
| `Records.LogBookEncode` | release/PHP_IGC-0.1.php:900-901 | a letter, a manufacturer character and any comment decode back to that manufacturer and comment, with the line as `raw` |
| `Records.GetRecord` | lib/PHP_IGC.php:85-93 | a record exactly when the line is non-empty and its upper-cased first character is A to L, and then a record of that letter; None (`false`) otherwise (release 106-114) |
| `Records.Dispatch` | lib/PHP_IGC.php:87-89 | the record for an upper-cased letter A to L is that letter's decoder applied to the unchanged line: A, C, D, E, G and L through their decoders, B through the fix decoder with null `raw`, H and I with the line as `raw`, J with null `raw`, F and K without fields (release 108-110) |
| `Records.RawAndType` | release/PHP_IGC-0.1.php:816-865 | `raw` is the line for A, C, G, H, I and L and null for B, D, E, F, J and K; `type` is the letter except for F and K, whose misspelled constructors leave it null (the `type` and `raw` assignments of the other ten are at release 291-292, 322-323, 371-372, 420-421, 464-465, 538-539, 649-650, 725-726, 770-771 and 897-898) |
| `Records.LetterCaseIgnored` | lib/PHP_IGC.php:87-89 | two lines that differ only in the case of the first letter decode to the same record, up to the `raw` copy of the line |
| `Records.LowerCaseFix` | lib/PHP_IGC.php:87-89 | a line starting with `b` decodes to the same B record as the line with `B` |
| `Records.TurningPointExample` | release/PHP_IGC-0.1.php:653-670 | `C0100000N00100000W comment` decodes as a turning point |
| `Records.NewTaskExample` | release/PHP_IGC-0.1.php:673-691 | `C150707153000150707000112 ` decodes as a new task |
| `Igc.Pressure` | lib/PHP_IGC.php:106-109 | a line contributes a pressure exactly when it is a record of type 'B' with extended data whose pressure text is a number, and the pressure is that number (release 127-130) |
| `Igc.HighestIsMaximum` | lib/PHP_IGC.php:100-108 | the maximum the loop computes is at least 0, at least every recorded pressure, and either 0 or one of them (release 121-129) |
| `Igc.NoPressureIgnored` | lib/PHP_IGC.php:106 | a record that is not a B fix with a pressure changes neither the maximum nor the minimum |
| `Igc.RisingPressureSkipsMinimum` | lib/PHP_IGC.php:107-110 | a pressure that raises the maximum becomes the maximum and leaves the minimum alone |
| `Igc.IgcFile.constructor` | lib/PHP_IGC.php:63-77 | one record per line read, each the record `getRecord` gives for that line |
| `Igc.IgcFile.SetDetails` | lib/PHP_IGC.php:98-120 | the maximum becomes the highest recorded pressure above 0 (0 if none) and the minimum always ends as 0; the records are unchanged (release 119-141) |
| `Igc.FixLinePressure` | lib/IGC_B_Record.php:103-109 | the example fix line with a five-character number written at 26..30 decodes to a record whose contributed pressure is that number |
| `Igc.ResetAlwaysFires` | lib/PHP_IGC.php:117-119 | for the example fix line written twice, with a pressure and then a lower one below 80000 at offsets 26..30, the loop leaves the second pressure, the least, as its minimum, which the reset then discards |
| `Igc.HigherThenLower` | lib/PHP_IGC.php:105-110 | two records with falling positive pressures, the second below 80000, give the second pressure as both the loop minimum and the corrected minimum |
| `Igc.ElseIfSkipsFirstPressure` | lib/PHP_IGC.php:107-110 | for the example fix line alone, with a positive pressure below 80000 at offsets 26..30, the pressure raises the maximum, so the loop leaves the minimum at 80000 although the least pressure is that one |
| `Igc.SinglePressure` | lib/PHP_IGC.php:107-110 | a lone record with a positive pressure below 80000 leaves the loop minimum at 80000 and makes the corrected minimum that pressure |
| `Igc.ResetExample` | lib/PHP_IGC.php:117-119 | the fix lines with pressures 01000 then 00500 leave 500 as the loop minimum |
| `Igc.ElseIfExample` | lib/PHP_IGC.php:107-110 | the fix line with the single pressure 00500 leaves the loop minimum at 80000 while the least pressure is 500 |
| `Igc.IgcFile.SetDetailsIntended` | lib/PHP_IGC.php:98-120 | with independent tests and a comparing reset, the maximum as before and the minimum the least recorded pressure, or 0 when no pressure below 80000 was recorded |
| `Igc.LowestIsMinimum` | lib/PHP_IGC.php:101-110 | the corrected minimum is at most 80000, at most every recorded pressure, and either 80000 or one of them |
| `Igc.IntendedMinimum` | lib/PHP_IGC.php:117-119 | when some pressure below 80000 was recorded the corrected minimum is the least recorded pressure; with no pressure at all it stays at 80000 before the reset |
| `Igc.ManufacturerFromCode` | lib/PHP_IGC.php:183-214 | the result, when there is one, is one of the table's twenty names (release 204-235) |
| `Igc.KnownCodes` | lib/PHP_IGC.php:188-211 | a name is found exactly for a one-character code among B, C, E, F, I, M, P, S, T, V, W, Z and 1 to 8; any other code, lower-case letters included, gives None (`false`) |
| `Igc.ManufacturerExamples` | lib/PHP_IGC.php:188-213 | 'C' names Cambridge and '4' names Garmin; 'c' and the empty code name nothing |

## Left out

- Reading the file (`file_exists`, `fopen`, `feof`, `fgets`) is I/O. The
  constructor takes the strings the reads returned. `fgets` keeps the line
  terminator, which counts toward the B record's length test and ends up in
  the last field. It returns at most 4095 characters per call. A final failed
  read gives `false`, which dispatches like an empty line. The model receives
  all of this in its input rather than producing it.
- `getMap` writes HTML and JavaScript for a map service. It holds no decoding
  logic.
- `strtotime` in the C new-task branch is a library call with time-zone and
  two-digit-year rules. The model keeps the six two-character date and time
  fields instead of the two timestamps.
- Fields.DecimalDegrees: PHP stores the decimal degrees as the string '-'
  joined to a float. The model keeps the exact real value and leaves out float
  rounding and formatting. For parts that are not digits of the full width,
  PHP's loose numeric coercion is not modelled, and the value is None. On PHP 8
  the constructor throws a TypeError on parts that are not numeric at all (for
  example the "." left by an empty minutes slice), where the model returns None.
- Igc.Pressure: pressure text that is not a decimal number (optionally signed)
  is treated as no reading. PHP compares such text loosely with numbers.
  The maximum is kept as a number, not as the five-character text PHP stores.
- Igc.IgcFile.SetDetails: inside the loop, a B record without a pressure
  reading leaves the minimum alone. PHP would store `null` there. The reset
  discards the minimum either way.
- Igc.IgcFile.constructor: `max_altitude` and `min_altitude` are unset until
  `setDetails` runs; the model starts them at 0.
- `getRecord` builds a class name and instantiates it by reflection. The model
  uses an explicit match on the letter.
- PHP versions differ in what `substr` returns past the end (`false` or `""`).
  The model uses one clamped slice that gives `""`.
- Igc.IgcFile.SetDetails: `setDetails` reads `$each['type']` and
  `$each['pressure_altitude']` with array syntax (lib/PHP_IGC.php:106-110). The
  record classes do not implement array access, so PHP stops with a fatal error
  ("Cannot use object of type ... as array") at the first decoded record. The
  loop finishes only when every entry is `false`, and it then records nothing.
  The model does not halt: it reads the record's `type` and
  `pressure_altitude` fields, which is what the code evidently means. The
  findings below are about the loop with that read.
- The file object's `datetime`, `pilot`, `glider_type`, `glider_id` and
  `distance` are never assigned by the code, so they are not modelled.
- Lines are sequences of characters. Multi-byte encodings and locale-dependent
  upper-casing are not modelled; upper-casing is ASCII only.

## Findings

| source | as written | input that shows it | evidently intended | confidence | as-written member | corrected member |
|---|---|---|---|---|---|---|
| lib/PHP_IGC.php:117 | with the fields read as line 106 evidently means (as written, the array-syntax read halts PHP first), `if ($this->min_altitude = 80000)` assigns instead of comparing, so the minimum always ends as 0 | fix lines with pressures 01000 then 00500: the loop finds 500, the reset discards it | reset to 0 only when no minimum was found (`==`) | high, not executed | `Igc.ResetExample` | `Igc.IgcFile.SetDetailsIntended` |
| lib/PHP_IGC.php:109 | with the fields read as line 106 evidently means (as written, the array-syntax read halts PHP first), the minimum is updated in an `elseif` of the maximum's test, so a pressure that raises the maximum is never a minimum candidate | a single fix line with pressure 00500: the minimum stays 80000, so even a comparing reset gives 0 | test the minimum independently of the maximum | high, not executed | `Igc.ElseIfExample` | `Igc.IgcFile.SetDetailsIntended` |
