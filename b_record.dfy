/**
 * The B record (a fix): time, latitude, longitude and, on lines longer than 25
 * characters, the extended data. The offsets are the ones the decoder reads,
 * which skip offset 24 and start the extended data at 25.
 */
module BRecord {
  import opened Optional
  import opened Text
  import opened Fields

  /** The fields set only when the line is longer than 25 characters. */
  datatype Extension = Extension(fixedValid: string, pressureAltitude: string, gpsAltitude: string, fixAccuracy: string)

  datatype Fix = Fix(
    time: Clock,
    latitude: Angle, latitudeDegrees: Option<real>,
    longitude: Angle, longitudeDegrees: Option<real>,
    extension: Option<Extension>)

  /** The fourteen characters the extended data is read from. */
  function ExtensionText(e: Extension): string {
    e.fixedValid + e.pressureAltitude + e.gpsAltitude + e.fixAccuracy
  }

  /**
   * `e` is the extended data `substr` gives: its text is the fourteen
   * characters from offset 25 and each part is as long as its slice (25, 26..30,
   * 31..35, 36..38), so a line that ends early shortens or empties the later parts.
   */
  predicate ExtensionAt(e: Extension, line: string) {
    ExtensionText(e) == Sub(line, 25, 14) &&
    |e.fixedValid| == SliceLength(|line|, 25, 1) &&
    |e.pressureAltitude| == SliceLength(|line|, 26, 5) &&
    |e.gpsAltitude| == SliceLength(|line|, 31, 5) &&
    |e.fixAccuracy| == SliceLength(|line|, 36, 3)
  }

  function ReadExtension(line: string): (e: Extension)
    ensures ExtensionAt(e, line)
    ensures 39 <= |line| ==>
      |e.fixedValid| == 1 && |e.pressureAltitude| == 5 && |e.gpsAltitude| == 5 && |e.fixAccuracy| == 3
  {
    SubAdjacent(line, 25, 1, 5);
    SubAdjacent(line, 25, 6, 5);
    SubAdjacent(line, 25, 11, 3);
    Extension(Sub(line, 25, 1), Sub(line, 26, 5), Sub(line, 31, 5), Sub(line, 36, 3))
  }

  /** Extended data is determined by its text once the widths of its parts are fixed. */
  lemma ExtensionTextInjective(e: Extension, d: Extension)
    requires ExtensionText(e) == ExtensionText(d)
    requires |e.fixedValid| == |d.fixedValid| && |e.pressureAltitude| == |d.pressureAltitude|
    requires |e.gpsAltitude| == |d.gpsAltitude|
    ensures e == d
  {
    ConcatInjective(e.fixedValid + e.pressureAltitude + e.gpsAltitude, e.fixAccuracy,
                    d.fixedValid + d.pressureAltitude + d.gpsAltitude, d.fixAccuracy);
    ConcatInjective(e.fixedValid + e.pressureAltitude, e.gpsAltitude, d.fixedValid + d.pressureAltitude, d.gpsAltitude);
    ConcatInjective(e.fixedValid, e.pressureAltitude, d.fixedValid, d.pressureAltitude);
  }

  /** The text and the part widths leave one extension: the one `ReadExtension` reads. */
  lemma ExtensionAtUnique(e: Extension, line: string)
    requires ExtensionAt(e, line)
    ensures e == ReadExtension(line)
  {
    ExtensionTextInjective(e, ReadExtension(line));
  }

  /**
   * Decodes a B line: the time and both coordinates always, the extended data
   * iff the line is longer than 25 characters.
   */
  function Decode(line: string): (f: Fix)
    ensures ClockAt(f.time, line, 1)
    ensures AngleAt(f.latitude, line, 7, 2)
    ensures AngleAt(f.longitude, line, 15, 3)
    ensures f.extension.Some? <==> |line| > 25
    ensures f.extension.Some? ==> ExtensionAt(f.extension.value, line)
    ensures f.latitudeDegrees == DecimalDegrees(f.latitude, "S")
    ensures f.longitudeDegrees == DecimalDegrees(f.longitude, "W")
    ensures f.latitudeDegrees.Some? <==> Complete(f.latitude)
    ensures f.longitudeDegrees.Some? <==> Complete(f.longitude)
    ensures |line| >= 24 ==> WidthsFit(f)
  {
    var latitude := ReadAngle(line, 7, 2);
    var longitude := ReadAngle(line, 15, 3);
    Fix(ReadClock(line, 1),
        latitude, DecimalDegrees(latitude, "S"),
        longitude, DecimalDegrees(longitude, "W"),
        if |line| > 25 then Some(ReadExtension(line)) else None)
  }

  /** Every part of the mandatory prefix at its full width. */
  predicate WidthsFit(f: Fix) {
    |f.time.h| == 2 && |f.time.m| == 2 && |f.time.s| == 2 &&
    |f.latitude.degrees| == 2 && |f.latitude.minutes| == 2 &&
    |f.latitude.decimalMinutes| == 3 && |f.latitude.direction| == 1 &&
    |f.longitude.degrees| == 3 && |f.longitude.minutes| == 2 &&
    |f.longitude.decimalMinutes| == 3 && |f.longitude.direction| == 1
  }

  /** Every part, the extended data included, at its full width. */
  predicate Shaped(f: Fix) {
    WidthsFit(f) &&
    (f.extension.Some? ==>
      |f.extension.value.fixedValid| == 1 && |f.extension.value.pressureAltitude| == 5 &&
      |f.extension.value.gpsAltitude| == 5 && |f.extension.value.fixAccuracy| == 3)
  }

  /** The fixes a line of 25 or 39 characters carries. */
  predicate WellFormed(f: Fix) {
    Shaped(f) &&
    f.latitudeDegrees == DecimalDegrees(f.latitude, "S") &&
    f.longitudeDegrees == DecimalDegrees(f.longitude, "W")
  }

  function ExtensionTextOf(e: Option<Extension>): string {
    match e
    case None => ""
    case Some(e) => ExtensionText(e)
  }

  /**
   * Writes a fix back as a B line. `skipped` fills offset 24, which the decoder
   * does not read.
   */
  function Encode(f: Fix, skipped: char): (line: string)
    requires Shaped(f)
    ensures |line| == if f.extension.Some? then 39 else 25
  {
    "B" + ClockText(f.time) + AngleText(f.latitude) + AngleText(f.longitude) + [skipped] + ExtensionTextOf(f.extension)
  }

  /** Decoding undoes encoding: every field comes back from the offset it was written to. */
  lemma DecodeEncode(f: Fix, skipped: char)
    requires WellFormed(f)
    ensures Decode(Encode(f, skipped)) == f
  {
    var line := Encode(f, skipped);
    EncodedSlices(f, skipped);
    var g := Decode(line);
    ClockTextInjective(g.time, f.time);
    AngleTextInjective(g.latitude, f.latitude);
    AngleTextInjective(g.longitude, f.longitude);
    if f.extension.Some? {
      ExtensionTextInjective(g.extension.value, f.extension.value);
    }
  }

  /** Each part of an encoded fix sits at the offset the decoder reads it from. */
  lemma EncodedSlices(f: Fix, skipped: char)
    requires Shaped(f)
    ensures Sub(Encode(f, skipped), 1, 6) == ClockText(f.time)
    ensures Sub(Encode(f, skipped), 7, 8) == AngleText(f.latitude)
    ensures Sub(Encode(f, skipped), 15, 9) == AngleText(f.longitude)
    ensures f.extension.Some? ==> Sub(Encode(f, skipped), 25, 14) == ExtensionText(f.extension.value)
  {
    var t, la, lo, e := ClockText(f.time), AngleText(f.latitude), AngleText(f.longitude), ExtensionTextOf(f.extension);
    var p1 := "B" + t;
    var p2 := p1 + la;
    var p3 := p2 + lo;
    var p4 := p3 + [skipped];
    // Each piece is found at its offset in the prefix that ends with it, and
    // appending the later pieces leaves that slice alone.
    SubOfRight("B", t);
    SubOfRight(p1, la);
    SubOfRight(p2, lo);
    SubOfRight(p4, e);
    SubOfLeft(p1, la, 1, 6);
    SubOfLeft(p2, lo, 1, 6);
    SubOfLeft(p2, lo, 7, 8);
    SubOfLeft(p3, [skipped], 1, 6);
    SubOfLeft(p3, [skipped], 7, 8);
    SubOfLeft(p3, [skipped], 15, 9);
    SubOfLeft(p4, e, 1, 6);
    SubOfLeft(p4, e, 7, 8);
    SubOfLeft(p4, e, 15, 9);
  }

  /** Encoding undoes decoding on lines of exactly 25 or 39 characters. */
  lemma EncodeDecode(line: string)
    requires |line| == 25 || |line| == 39
    requires line[0] == 'B'
    ensures WellFormed(Decode(line))
    ensures Encode(Decode(line), line[24]) == line
  {
    var f := Decode(line);
    assert ClockText(f.time) == line[1..7];
    assert AngleText(f.latitude) == line[7..15];
    assert AngleText(f.longitude) == line[15..24];
    assert ExtensionTextOf(f.extension) == line[25..];
    assert line[..1] == "B";
    calc {
      Encode(f, line[24]);
      line[..1] + line[1..7] + line[7..15] + line[15..24] + [line[24]] + line[25..];
      { SlicesJoin(line); }
      line;
    }
  }

  lemma SlicesJoin(line: string)
    requires |line| >= 25
    ensures line[..1] + line[1..7] + line[7..15] + line[15..24] + [line[24]] + line[25..] == line
  {
    assert line == line[..1] + line[1..];
    assert line[1..] == line[1..7] + line[7..];
    assert line[7..] == line[7..15] + line[15..];
    assert line[15..] == line[15..24] + line[24..];
    assert line[24..] == [line[24]] + line[25..];
  }

  /** The record letter is not read: lines that differ only there decode alike. */
  lemma DecodeIgnoresLetter(line: string, other: string)
    requires SameAfterFirst(line, other)
    ensures Decode(line) == Decode(other)
  {
    SlicesIgnoreFirst(line, other);
  }

  /**
   * A fix of 25 characters followed by CR LF, as a line read with its
   * terminator is: fixed validity is the CR, the pressure altitude is the LF,
   * and the GPS altitude and fix accuracy are empty.
   */
  lemma TerminatedShortFix(line: string)
    requires |line| == 27
    ensures Decode(line).extension == Some(Extension([line[25]], [line[26]], "", ""))
  {
    var e := Extension([line[25]], [line[26]], "", "");
    assert Sub(line, 25, 14) == line[25..] == [line[25]] + [line[26]];
    ExtensionAtUnique(e, line);
  }

  /** Whatever follows the fix accuracy (a line terminator, say) leaves the fix unchanged. */
  lemma DecodeIgnoresTail(line: string)
    requires |line| >= 39
    ensures Decode(line) == Decode(line[..39])
  {
    var short := line[..39];
    forall start: nat, n: nat | start + n <= 39
      ensures Sub(short, start, n) == Sub(line, start, n)
    {
      SubOfPrefix(line, 39, start, n);
    }
  }

  /** The first 39 characters of `ExampleLine`, written as the pieces the decoder reads. */
  const ExampleFixText := "B" + "101228" + "5247630N" + "00640055W" + "A" + "00193001960030"

  /** `B1012285247630N00640055WA001930019600309`: 40 characters, the last one past the fix accuracy. */
  const ExampleLine := ExampleFixText + "9"

  lemma ExampleClockAndLatitude()
    ensures ClockText(Clock("10", "12", "28")) == "101228"
    ensures AngleText(Angle("52", "47", "630", "N")) == "5247630N"
  {
  }

  lemma ExampleLongitudeAndExtension()
    ensures AngleText(Angle("006", "40", "055", "W")) == "00640055W"
    ensures ExtensionText(Extension("0", "01930", "01960", "030")) == "00193001960030"
  {
  }

  lemma ExampleDegrees()
    ensures DecimalDegrees(Angle("52", "47", "630", "N"), "S") == Some(52.0 + 47.630 / 60.0)
    ensures DecimalDegrees(Angle("006", "40", "055", "W"), "W") == Some(-(6.0 + 40.055 / 60.0))
  {
    DigitsValueOfTwo('5', '2');
    DigitsValueOfTwo('4', '7');
    DigitsValueOfThree('6', '3', '0');
    DigitsValueOfThree('0', '0', '6');
    DigitsValueOfTwo('4', '0');
    DigitsValueOfThree('0', '5', '5');
  }

  /**
   * The example line decodes to time 10:12:28, latitude 52 degrees 47.630 minutes
   * north, longitude 6 degrees 40.055 minutes west, fixed_valid "0" (offset 25,
   * not the 'A' at offset 24), pressure "01930", GPS "01960", accuracy "030".
   * The final "9" is not read.
   */
  lemma ExampleFix()
    ensures Decode(ExampleLine) == Fix(
      Clock("10", "12", "28"),
      Angle("52", "47", "630", "N"), Some(52.0 + 47.630 / 60.0),
      Angle("006", "40", "055", "W"), Some(-(6.0 + 40.055 / 60.0)),
      Some(Extension("0", "01930", "01960", "030")))
  {
    var f := Fix(
      Clock("10", "12", "28"),
      Angle("52", "47", "630", "N"), Some(52.0 + 47.630 / 60.0),
      Angle("006", "40", "055", "W"), Some(-(6.0 + 40.055 / 60.0)),
      Some(Extension("0", "01930", "01960", "030")));
    ExampleDegrees();
    ExampleClockAndLatitude();
    ExampleLongitudeAndExtension();
    DecodeEncode(f, 'A');
    assert Encode(f, 'A') == ExampleFixText;
    DecodeIgnoresTail(ExampleLine);
    assert ExampleLine[..39] == ExampleFixText;
  }
}
