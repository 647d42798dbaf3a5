/**
 * The file-level object: the list of decoded records, the altitude summary
 * computed from the B records' pressure altitudes, and the table that names a
 * flight-recorder manufacturer from its one-character code.
 */
module Igc {
  import opened Optional
  import opened Text
  import opened Records
  import BRecord

  /** The pressure threshold the minimum starts from, and the value the reset looks for. */
  const NoMinimum := 80000

  /** A decimal number as PHP reads one: digits, optionally after a minus sign. */
  predicate Numeric(p: string) {
    (0 < |p| && IsDigits(p)) || (1 < |p| && p[0] == '-' && IsDigits(p[1..]))
  }

  function NumericValue(p: string): (v: int)
    requires Numeric(p)
    ensures IsDigits(p) ==> v == DigitsValue(p)
    ensures !IsDigits(p) ==> v == -(DigitsValue(p[1..]) as int)
  {
    if IsDigits(p) then DigitsValue(p) else -(DigitsValue(p[1..]) as int)
  }

  /**
   * The pressure altitude a decoded line contributes: the number in the
   * `pressure_altitude` field of a record whose type is 'B'. Other records,
   * B records without extended data and pressure text that is not a number
   * contribute nothing.
   */
  function Pressure(r: Option<Record>): (p: Option<int>)
    ensures p.Some? ==> r.Some? && TypeTag(r.value) == Some('B') && r.value.fix.extension.Some?
    ensures p.Some? <==> r.Some? && r.value.B? && r.value.fix.extension.Some? &&
                         Numeric(r.value.fix.extension.value.pressureAltitude)
    ensures p.Some? ==> p.value == NumericValue(r.value.fix.extension.value.pressureAltitude)
  {
    match r
    case Some(B(_, fix)) =>
      if fix.extension.Some? && Numeric(fix.extension.value.pressureAltitude)
      then Some(NumericValue(fix.extension.value.pressureAltitude))
      else None
    case _ => None
  }

  /** The maximum the altitude loop leaves: it starts at 0 and rises to any larger pressure. */
  function Highest(rs: seq<Option<Record>>): int {
    if rs == [] then 0
    else
      var m := Highest(rs[..|rs| - 1]);
      match Pressure(rs[|rs| - 1])
      case Some(p) => if p > m then p else m
      case None => m
  }

  /**
   * The minimum the altitude loop leaves before its reset, as written: it
   * starts at 80000 and takes a lower pressure only when that pressure did not
   * first raise the maximum (the `elseif`).
   */
  function LoopMinimum(rs: seq<Option<Record>>): int {
    if rs == [] then NoMinimum
    else
      var prefix := rs[..|rs| - 1];
      var m := LoopMinimum(prefix);
      match Pressure(rs[|rs| - 1])
      case Some(p) => if p > Highest(prefix) then m else if p < m then p else m
      case None => m
  }

  /** The minimum the altitude loop would leave with the two tests independent. */
  function Lowest(rs: seq<Option<Record>>): int {
    if rs == [] then NoMinimum
    else
      var m := Lowest(rs[..|rs| - 1]);
      match Pressure(rs[|rs| - 1])
      case Some(p) => if p < m then p else m
      case None => m
  }

  /** The maximum is 0 or more, at least every recorded pressure, and 0 or one of them. */
  lemma {:induction false} HighestIsMaximum(rs: seq<Option<Record>>)
    ensures Highest(rs) >= 0
    ensures forall i :: 0 <= i < |rs| && Pressure(rs[i]).Some? ==> Pressure(rs[i]).value <= Highest(rs)
    ensures Highest(rs) == 0 || exists i :: 0 <= i < |rs| && Pressure(rs[i]) == Some(Highest(rs))
  {
    if rs != [] {
      var prefix := rs[..|rs| - 1];
      HighestIsMaximum(prefix);
      assert forall i :: 0 <= i < |prefix| ==> prefix[i] == rs[i];
      if Highest(rs) != 0 && Highest(rs) != Highest(prefix) {
        assert Pressure(rs[|rs| - 1]) == Some(Highest(rs));
      }
    }
  }

  /** The independent minimum is at most 80000, at most every recorded pressure, and 80000 or one of them. */
  lemma {:induction false} LowestIsMinimum(rs: seq<Option<Record>>)
    ensures Lowest(rs) <= NoMinimum
    ensures forall i :: 0 <= i < |rs| && Pressure(rs[i]).Some? ==> Lowest(rs) <= Pressure(rs[i]).value
    ensures Lowest(rs) == NoMinimum || exists i :: 0 <= i < |rs| && Pressure(rs[i]) == Some(Lowest(rs))
  {
    if rs != [] {
      var prefix := rs[..|rs| - 1];
      LowestIsMinimum(prefix);
      assert forall i :: 0 <= i < |prefix| ==> prefix[i] == rs[i];
      if Lowest(rs) != NoMinimum && Lowest(rs) != Lowest(prefix) {
        assert Pressure(rs[|rs| - 1]) == Some(Lowest(rs));
      }
    }
  }

  /** Records that carry no pressure (other letters, fixes without extended data) change neither summary. */
  lemma NoPressureIgnored(rs: seq<Option<Record>>, r: Option<Record>)
    requires Pressure(r).None?
    ensures Highest(rs + [r]) == Highest(rs)
    ensures LoopMinimum(rs + [r]) == LoopMinimum(rs)
    ensures Lowest(rs + [r]) == Lowest(rs)
  {
    assert (rs + [r])[..|rs|] == rs;
  }

  /** A pressure that raises the maximum is never compared with the minimum. */
  lemma RisingPressureSkipsMinimum(rs: seq<Option<Record>>, r: Option<Record>)
    requires Pressure(r).Some? && Pressure(r).value > Highest(rs)
    ensures Highest(rs + [r]) == Pressure(r).value
    ensures LoopMinimum(rs + [r]) == LoopMinimum(rs)
  {
    assert (rs + [r])[..|rs|] == rs;
  }

  /**
   * With the reset corrected, the minimum is the least recorded pressure when
   * some pressure below 80000 was recorded, and 0 when none was.
   */
  lemma IntendedMinimum(rs: seq<Option<Record>>)
    ensures (exists i :: 0 <= i < |rs| && Pressure(rs[i]).Some? && Pressure(rs[i]).value < NoMinimum) ==>
      Lowest(rs) < NoMinimum &&
      (forall i :: 0 <= i < |rs| && Pressure(rs[i]).Some? ==> Lowest(rs) <= Pressure(rs[i]).value) &&
      (exists i :: 0 <= i < |rs| && Pressure(rs[i]) == Some(Lowest(rs)))
    ensures (forall i :: 0 <= i < |rs| ==> Pressure(rs[i]).None?) ==> Lowest(rs) == NoMinimum
  {
    LowestIsMinimum(rs);
  }

  /** The example fix line of the B record, with `pressure` at offsets 26..30. */
  function FixLine(pressure: string): string {
    "B" + "101228" + "5247630N" + "00640055W" + "A" + BRecord.ExtensionText(BRecord.Extension("0", pressure, "01960", "030"))
  }

  /** Decoding a fix line yields a B record whose pressure altitude is the text written at 26..30. */
  lemma FixLinePressure(pressure: string)
    requires |pressure| == 5 && Numeric(pressure)
    ensures Pressure(GetRecord(FixLine(pressure))) == Some(NumericValue(pressure))
  {
    var line := FixLine(pressure);
    var e := BRecord.Extension("0", pressure, "01960", "030");
    var prefix := "B" + "101228" + "5247630N" + "00640055W" + "A";
    assert line == prefix + BRecord.ExtensionText(e) && |prefix| == 25;
    SubOfRight(prefix, BRecord.ExtensionText(e));
    Dispatch(line);
    var f := BRecord.Decode(line);
    BRecord.ExtensionAtUnique(e, line);
    BRecord.ExtensionAtUnique(f.extension.value, line);
  }

  /**
   * The example fix line twice, the first with the higher pressure (01000 then 00500, say):
   * the loop does record the second as the minimum, yet the reset, an
   * assignment rather than a comparison, replaces it by 0.
   */
  lemma ResetAlwaysFires(high: string, low: string)
    requires |high| == 5 && IsDigits(high) && |low| == 5 && IsDigits(low)
    requires 0 < DigitsValue(low) < DigitsValue(high) && DigitsValue(low) < NoMinimum
    ensures LoopMinimum([GetRecord(FixLine(high)), GetRecord(FixLine(low))]) == DigitsValue(low)
    ensures Lowest([GetRecord(FixLine(high)), GetRecord(FixLine(low))]) == DigitsValue(low)
  {
    FixLinePressure(high);
    FixLinePressure(low);
    HigherThenLower(GetRecord(FixLine(high)), GetRecord(FixLine(low)));
  }

  lemma HigherThenLower(first: Option<Record>, second: Option<Record>)
    requires Pressure(first).Some? && Pressure(second).Some?
    requires 0 < Pressure(second).value < Pressure(first).value && Pressure(second).value < NoMinimum
    ensures LoopMinimum([first, second]) == Pressure(second).value
    ensures Lowest([first, second]) == Pressure(second).value
  {
    var rs := [first, second];
    assert rs[..|rs| - 1] == [first] && rs[|rs| - 1] == second;
    assert [first][..0] == [];
    assert Highest([first]) == Pressure(first).value;
    assert LoopMinimum([first]) == NoMinimum;
    assert Lowest([first]) <= NoMinimum;
  }

  /**
   * The example fix line alone, with a pressure below 80000 (00500, say): it raises the
   * maximum, so the `elseif` never lets it lower the minimum, and even a
   * correct reset would report 0.
   */
  lemma ElseIfSkipsFirstPressure(pressure: string)
    requires |pressure| == 5 && IsDigits(pressure) && 0 < DigitsValue(pressure) < NoMinimum
    ensures LoopMinimum([GetRecord(FixLine(pressure))]) == NoMinimum
    ensures Lowest([GetRecord(FixLine(pressure))]) == DigitsValue(pressure)
  {
    FixLinePressure(pressure);
    SinglePressure(GetRecord(FixLine(pressure)));
  }

  lemma SinglePressure(r: Option<Record>)
    requires Pressure(r).Some? && 0 < Pressure(r).value < NoMinimum
    ensures LoopMinimum([r]) == NoMinimum
    ensures Lowest([r]) == Pressure(r).value
  {
    assert [r][..0] == [];
  }

  /** The pressures 01000 and 00500 of the examples above, as numbers. */
  lemma ExamplePressures()
    ensures DigitsValue("01000") == 1000 && DigitsValue("00500") == 500
  {
    DigitsValueOfFive('0', '1', '0', '0', '0');
    DigitsValueOfFive('0', '0', '5', '0', '0');
  }

  /** The fix lines with pressures 01000 then 00500: the loop's minimum is 500, which the reset discards. */
  lemma ResetExample()
    ensures LoopMinimum([GetRecord(FixLine("01000")), GetRecord(FixLine("00500"))]) == 500
  {
    ExamplePressures();
    ResetAlwaysFires("01000", "00500");
  }

  /** The fix line with the single pressure 00500 leaves the loop's minimum at 80000. */
  lemma ElseIfExample()
    ensures LoopMinimum([GetRecord(FixLine("00500"))]) == NoMinimum
    ensures Lowest([GetRecord(FixLine("00500"))]) == 500
  {
    ExamplePressures();
    ElseIfSkipsFirstPressure("00500");
  }

  /** The decoded records of one file, and the altitude summary `setDetails` fills in. */
  class IgcFile {
    /** One entry per line read; None where no record class exists for the line's letter. */
    var records: seq<Option<Record>>
    var maxAltitude: int
    var minAltitude: int

    /**
     * Decodes each line in turn. The lines are what successive reads of the
     * file returned, line terminators included.
     */
    constructor (lines: seq<string>)
      ensures |records| == |lines|
      ensures forall i :: 0 <= i < |lines| ==> records[i] == GetRecord(lines[i])
      ensures maxAltitude == 0 && minAltitude == 0
    {
      var decoded := [];
      var i := 0;
      while i < |lines|
        invariant 0 <= i <= |lines|
        invariant |decoded| == i
        invariant forall k :: 0 <= k < i ==> decoded[k] == GetRecord(lines[k])
      {
        decoded := decoded + [GetRecord(lines[i])];
        i := i + 1;
      }
      records := decoded;
      maxAltitude, minAltitude := 0, 0;
    }

    /**
     * `setDetails` as written: the highest B pressure altitude above 0 becomes
     * the maximum, and the minimum always ends as 0.
     */
    method SetDetails()
      modifies this
      ensures records == old(records)
      ensures maxAltitude == Highest(records)
      ensures minAltitude == 0
    {
      maxAltitude := 0;
      minAltitude := NoMinimum;
      var i := 0;
      while i < |records|
        invariant 0 <= i <= |records| && records == old(records)
        invariant maxAltitude == Highest(records[..i])
        invariant minAltitude == LoopMinimum(records[..i])
      {
        var each := records[i];
        if each.Some? && TypeTag(each.value) == Some('B') {
          var p := Pressure(each);
          if p.Some? {
            if p.value > maxAltitude {
              maxAltitude := p.value;
            } else if p.value < minAltitude {
              minAltitude := p.value;
            }
          }
        }
        assert records[..i + 1][..i] == records[..i];
        i := i + 1;
      }
      assert records[..i] == records;
      // The reset test assigns 80000 and then tests that value, which is never 0.
      minAltitude := NoMinimum;
      if minAltitude != 0 {
        minAltitude := 0;
      }
    }

    /**
     * `setDetails` with the minimum's test independent of the maximum's and the
     * reset comparing instead of assigning.
     */
    method SetDetailsIntended()
      modifies this
      ensures records == old(records)
      ensures maxAltitude == Highest(records)
      ensures minAltitude == if Lowest(records) == NoMinimum then 0 else Lowest(records)
    {
      maxAltitude := 0;
      minAltitude := NoMinimum;
      var i := 0;
      while i < |records|
        invariant 0 <= i <= |records| && records == old(records)
        invariant maxAltitude == Highest(records[..i])
        invariant minAltitude == Lowest(records[..i])
      {
        var each := records[i];
        if each.Some? && TypeTag(each.value) == Some('B') {
          var p := Pressure(each);
          if p.Some? {
            if p.value > maxAltitude {
              maxAltitude := p.value;
            }
            if p.value < minAltitude {
              minAltitude := p.value;
            }
          }
        }
        assert records[..i + 1][..i] == records[..i];
        i := i + 1;
      }
      assert records[..i] == records;
      if minAltitude == NoMinimum {
        minAltitude := 0;
      }
    }
  }

  /** `GetManufacturerFromCode`'s table. */
  const Manufacturers: map<string, string> := map[
    "B" := "Borgelt", "C" := "Cambridge", "E" := "EW", "F" := "Filser",
    "I" := "Ilec", "M" := "Metron", "P" := "Peschges", "S" := "Sky Force",
    "T" := "PathTracker", "V" := "Varcom", "W" := "Westerboer", "Z" := "Zander",
    "1" := "Collins", "2" := "Honeywell", "3" := "King", "4" := "Garmin",
    "5" := "Trimble", "6" := "Motorola", "7" := "Magellan", "8" := "Rockwell"]

  /** The letters and digits the table knows. */
  predicate KnownCode(c: char) {
    c == 'B' || c == 'C' || c == 'E' || c == 'F' || c == 'I' || c == 'M' || c == 'P' ||
    c == 'S' || c == 'T' || c == 'V' || c == 'W' || c == 'Z' || ('1' <= c <= '8')
  }

  /** The manufacturer's full name, or None (PHP false) for a code the table does not list. */
  function ManufacturerFromCode(code: string): (name: Option<string>)
    ensures name.Some? ==> name.value in Manufacturers.Values
  {
    if code in Manufacturers then Some(Manufacturers[code]) else None
  }

  /** A name is found exactly for a single character among the twenty codes; the lookup is case-sensitive. */
  lemma KnownCodes(code: string)
    ensures ManufacturerFromCode(code).Some? <==> |code| == 1 && KnownCode(code[0])
  {
    if |code| == 1 {
      assert code == [code[0]];
    }
  }

  lemma ManufacturerExamples()
    ensures ManufacturerFromCode("C") == Some("Cambridge")
    ensures ManufacturerFromCode("4") == Some("Garmin")
    ensures ManufacturerFromCode("c") == None
    ensures ManufacturerFromCode("") == None
  {
    KnownCodes("c");
    KnownCodes("");
  }
}
