/**
 * Field decoders shared by several record types: the HHMMSS time triple and the
 * degrees / minutes / decimal-minutes / hemisphere coordinate, with the
 * conversion of a coordinate to signed decimal degrees.
 */
module Fields {
  import opened Optional
  import opened Text

  /** `time_array`: hours, minutes and seconds, each kept as the two characters read. */
  datatype Clock = Clock(h: string, m: string, s: string)

  /** The six characters a clock is read from. */
  function ClockText(c: Clock): string {
    c.h + c.m + c.s
  }

  /**
   * `c` is the time triple `substr` gives at `at`: its text is the six
   * characters there and each part is as long as the two-character slice it
   * comes from.
   */
  predicate ClockAt(c: Clock, line: string, at: nat) {
    ClockText(c) == Sub(line, at, 6) &&
    |c.h| == SliceLength(|line|, at, 2) && |c.m| == SliceLength(|line|, at + 2, 2) &&
    |c.s| == SliceLength(|line|, at + 4, 2)
  }

  /** Reads the time triple at `at`, `at + 2` and `at + 4` of `line`. */
  function ReadClock(line: string, at: nat): (c: Clock)
    ensures ClockAt(c, line, at)
    ensures at + 6 <= |line| ==> |c.h| == 2 && |c.m| == 2 && |c.s| == 2
  {
    SubAdjacent(line, at, 2, 2);
    SubAdjacent(line, at, 4, 2);
    Clock(Sub(line, at, 2), Sub(line, at + 2, 2), Sub(line, at + 4, 2))
  }

  /**
   * A latitude or longitude as its raw parts: degrees (2 characters for a
   * latitude, 3 for a longitude), minutes (2), decimal minutes (3) and the
   * hemisphere letter (1).
   */
  datatype Angle = Angle(degrees: string, minutes: string, decimalMinutes: string, direction: string)

  /** The characters an angle is read from, in line order. */
  function AngleText(a: Angle): string {
    a.degrees + a.minutes + a.decimalMinutes + a.direction
  }

  /**
   * `a` is the angle `substr` gives at `at` with degrees `width` wide: its text
   * is the `width + 6` characters there and each part is as long as the slice
   * it comes from.
   */
  predicate AngleAt(a: Angle, line: string, at: nat, width: nat) {
    AngleText(a) == Sub(line, at, width + 6) &&
    |a.degrees| == SliceLength(|line|, at, width) &&
    |a.minutes| == SliceLength(|line|, at + width, 2) &&
    |a.decimalMinutes| == SliceLength(|line|, at + width + 2, 3) &&
    |a.direction| == SliceLength(|line|, at + width + 5, 1)
  }

  /** Reads an angle whose degrees are `width` characters wide, starting at `at`. */
  function ReadAngle(line: string, at: nat, width: nat): (a: Angle)
    ensures AngleAt(a, line, at, width)
    ensures at + width + 6 <= |line| ==>
      |a.degrees| == width && |a.minutes| == 2 && |a.decimalMinutes| == 3 && |a.direction| == 1
  {
    SubAdjacent(line, at, width, 2);
    SubAdjacent(line, at, width + 2, 3);
    SubAdjacent(line, at, width + 5, 1);
    Angle(Sub(line, at, width), Sub(line, at + width, 2), Sub(line, at + width + 2, 3), Sub(line, at + width + 5, 1))
  }

  /** A clock is determined by its text once the widths of its parts are fixed. */
  lemma ClockTextInjective(c: Clock, d: Clock)
    requires ClockText(c) == ClockText(d) && |c.h| == |d.h| && |c.m| == |d.m|
    ensures c == d
  {
    ConcatInjective(c.h + c.m, c.s, d.h + d.m, d.s);
    ConcatInjective(c.h, c.m, d.h, d.m);
  }

  /** An angle is determined by its text once the widths of its parts are fixed. */
  lemma AngleTextInjective(a: Angle, b: Angle)
    requires AngleText(a) == AngleText(b)
    requires |a.degrees| == |b.degrees| && |a.minutes| == |b.minutes| && |a.decimalMinutes| == |b.decimalMinutes|
    ensures a == b
  {
    ConcatInjective(a.degrees + a.minutes + a.decimalMinutes, a.direction, b.degrees + b.minutes + b.decimalMinutes, b.direction);
    ConcatInjective(a.degrees + a.minutes, a.decimalMinutes, b.degrees + b.minutes, b.decimalMinutes);
    ConcatInjective(a.degrees, a.minutes, b.degrees, b.minutes);
  }

  /** The text and the part widths leave one clock: the one `ReadClock` reads. */
  lemma ClockAtUnique(c: Clock, line: string, at: nat)
    requires ClockAt(c, line, at)
    ensures c == ReadClock(line, at)
  {
    ClockTextInjective(c, ReadClock(line, at));
  }

  /** The text and the part widths leave one angle: the one `ReadAngle` reads. */
  lemma AngleAtUnique(a: Angle, line: string, at: nat, width: nat)
    requires AngleAt(a, line, at, width)
    ensures a == ReadAngle(line, at, width)
  {
    AngleTextInjective(a, ReadAngle(line, at, width));
  }

  /**
   * The parts the numeric conversion is modelled for: digit strings, with the
   * minutes and decimal minutes at their full width.
   */
  predicate Complete(a: Angle) {
    0 < |a.degrees| && IsDigits(a.degrees) &&
    |a.minutes| == 2 && IsDigits(a.minutes) &&
    |a.decimalMinutes| == 3 && IsDigits(a.decimalMinutes)
  }

  /** `degrees + (minutes + decimal_minutes / 1000) / 60`, the unsigned value in degrees. */
  function Magnitude(a: Angle): real
    requires Complete(a)
  {
    DigitsValue(a.degrees) as real
      + (DigitsValue(a.minutes) as real + DigitsValue(a.decimalMinutes) as real / 1000.0) / 60.0
  }

  /** The angle counted exactly in thousandths of a minute. */
  function Thousandths(a: Angle): nat
    requires Complete(a)
  {
    DigitsValue(a.degrees) * 60000 + DigitsValue(a.minutes) * 1000 + DigitsValue(a.decimalMinutes)
  }

  /**
   * `decimal_degrees`: the magnitude, negated exactly when the hemisphere is
   * `negative` ("S" for a latitude, "W" for a longitude); every other direction,
   * the empty one included, gives the positive value.
   */
  function DecimalDegrees(a: Angle, negative: string): (r: Option<real>)
    ensures r.Some? <==> Complete(a)
    ensures r.Some? ==> r.value * 60000.0 == (if a.direction == negative then -1.0 else 1.0) * Thousandths(a) as real
    ensures r.Some? && a.direction == negative ==> r.value <= 0.0
    ensures r.Some? && a.direction != negative ==> r.value >= 0.0
  {
    if !Complete(a) then None
    else if a.direction == negative then Some(-Magnitude(a))
    else Some(Magnitude(a))
  }

  /** With minutes below 60, the minutes add less than one degree to the degrees. */
  lemma MinutesBelowOneDegree(a: Angle)
    requires Complete(a) && DigitsValue(a.minutes) <= 59
    ensures DigitsValue(a.degrees) as real <= Magnitude(a) < DigitsValue(a.degrees) as real + 1.0
  {
    assert DigitsValue(a.decimalMinutes) < 1000 by {
      assert Pow10(|a.decimalMinutes|) == 1000;
    }
  }

  /** A latitude of at most 89 degrees and 59 minutes lies strictly between the poles. */
  lemma LatitudeInRange(a: Angle, negative: string)
    requires Complete(a) && DigitsValue(a.degrees) <= 89 && DigitsValue(a.minutes) <= 59
    ensures -90.0 < DecimalDegrees(a, negative).value < 90.0
  {
    MinutesBelowOneDegree(a);
  }

  /** A longitude of at most 179 degrees and 59 minutes lies strictly within the antimeridian. */
  lemma LongitudeInRange(a: Angle, negative: string)
    requires Complete(a) && DigitsValue(a.degrees) <= 179 && DigitsValue(a.minutes) <= 59
    ensures -180.0 < DecimalDegrees(a, negative).value < 180.0
  {
    MinutesBelowOneDegree(a);
  }
}
