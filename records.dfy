/**
 * The IGC record sum type, one variant per record letter, the decoders of the
 * letters that have no module of their own (A, C, D, E, G, L) and the
 * dispatcher that picks a decoder by the line's first character.
 */
module Records {
  import opened Optional
  import opened Text
  import opened Fields
  import BRecord
  import HRecord
  import IRecord

  /** A day, month and year, each kept as the two characters read. */
  datatype Date = Date(day: string, month: string, year: string)

  function DateText(d: Date): string {
    d.day + d.month + d.year
  }

  /** `d` is the date `substr` gives at `at`: the six characters there, each part as long as its two-character slice. */
  predicate DateAt(d: Date, line: string, at: nat) {
    DateText(d) == Sub(line, at, 6) &&
    |d.day| == SliceLength(|line|, at, 2) && |d.month| == SliceLength(|line|, at + 2, 2) &&
    |d.year| == SliceLength(|line|, at + 4, 2)
  }

  /** The two shapes of a C record. */
  datatype Task =
    | TurningPoint(latitude: Angle, longitude: Angle, comment: string)
    | NewTask(declaredDate: Date, declaredTime: Clock, flightDate: Date, taskId: string, numberOfTps: string, comment: string)

  /** The characters after the record letter a task is read from, in line order. */
  function TaskText(t: Task): string {
    match t
    case TurningPoint(latitude, longitude, comment) => AngleText(latitude) + (AngleText(longitude) + comment)
    case NewTask(declared, time, flight, taskId, numberOfTps, comment) =>
      DateText(declared) + (ClockText(time) + (DateText(flight) + (taskId + (numberOfTps + comment))))
  }

  /**
   * One decoded line. `raw` is the line itself where the constructor stores it
   * and None where it stores the undefined `$string` (B, D, E and J). F and K
   * carry nothing: their constructors are never run, so every field, the type
   * tag included, stays null.
   */
  datatype Record =
    | A(raw: Option<string>, manufacturer: string, uniqueId: string, idExtension: string)
    | B(raw: Option<string>, fix: BRecord.Fix)
    | C(raw: Option<string>, task: Task)
    | D(raw: Option<string>, gpsQualifier: string, stationId: string)
    | E(raw: Option<string>, time: Clock, mnemonics: string, comment: string)
    | F
    | G(raw: Option<string>, securityCode: string)
    | H(raw: Option<string>, header: HRecord.Header)
    | I(raw: Option<string>, definition: IRecord.Definition)
    | J(raw: Option<string>, definition: IRecord.Definition)
    | K
    | L(raw: Option<string>, manufacturer: string, comment: string)

  /** The letter of the record's class (`IGC_<letter>_Record`). */
  function Letter(r: Record): char {
    match r
    case A(_, _, _, _) => 'A'
    case B(_, _) => 'B'
    case C(_, _) => 'C'
    case D(_, _, _) => 'D'
    case E(_, _, _, _) => 'E'
    case F => 'F'
    case G(_, _) => 'G'
    case H(_, _) => 'H'
    case I(_, _) => 'I'
    case J(_, _) => 'J'
    case K => 'K'
    case L(_, _, _) => 'L'
  }

  /** The record's `type` field: null for F and K, whose constructors never run. */
  function TypeTag(r: Record): Option<char> {
    if r.F? || r.K? then None else Some(Letter(r))
  }

  /** The record's `raw` field. */
  function Raw(r: Record): Option<string> {
    if r.F? || r.K? then None else r.raw
  }

  /** The record with its `raw` field cleared: what it holds besides the line itself. */
  function WithoutRaw(r: Option<Record>): Option<Record> {
    match r
    case None => None
    case Some(rec) => if rec.F? || rec.K? then r else Some(rec.(raw := None))
  }

  /**
   * A: manufacturer at offset 1, unique id at 2..6 and the id extension from 6
   * on, so the unique id's last character is also the extension's first.
   */
  function DecodeA(line: string): (r: Record)
    ensures r.A? && r.raw == Some(line)
    ensures r.manufacturer + r.uniqueId + SubFrom(line, 7) == SubFrom(line, 1)
    ensures r.idExtension == Sub(line, 6, 1) + SubFrom(line, 7)
    ensures |line| >= 7 ==> |r.uniqueId| == 5 && r.uniqueId[4] == r.idExtension[0]
    ensures |r.manufacturer| == SliceLength(|line|, 1, 1) && |r.uniqueId| == SliceLength(|line|, 2, 5)
  {
    SubAdjacent(line, 1, 1, 5);
    SubThenRest(line, 1, 6);
    SubThenRest(line, 6, 1);
    A(Some(line), Sub(line, 1, 1), Sub(line, 2, 5), SubFrom(line, 6))
  }

  /** A character class of the turning-point regular expression. */
  datatype CharClass = Digit | OneOf(chars: set<char>)

  predicate InClass(k: CharClass, c: char) {
    match k
    case Digit => '0' <= c <= '9'
    case OneOf(cs) => c in cs
  }

  function Repeat(k: CharClass, n: nat): (p: seq<CharClass>)
    ensures |p| == n && forall i :: 0 <= i < n ==> p[i] == k
  {
    if n == 0 then [] else [k] + Repeat(k, n - 1)
  }

  /** `/^[0-9]{7}[N|S]{1}[0-9]{8}[E|W]{1}/`; inside brackets '|' is one more admitted character. */
  const TurningPointPattern: seq<CharClass> :=
    Repeat(Digit, 7) + [OneOf({'N', '|', 'S'})] + Repeat(Digit, 8) + [OneOf({'E', '|', 'W'})]

  /** `preg_match` of a pattern anchored at the start only: the pattern matches a prefix of `s`. */
  function MatchesPrefix(p: seq<CharClass>, s: string): bool {
    if p == [] then true
    else s != [] && InClass(p[0], s[0]) && MatchesPrefix(p[1..], s[1..])
  }

  /** A prefix match is a character-by-character match of the first |p| characters. */
  lemma {:induction false} MatchesPrefixPointwise(p: seq<CharClass>, s: string)
    ensures MatchesPrefix(p, s) <==> |p| <= |s| && forall i :: 0 <= i < |p| ==> InClass(p[i], s[i])
  {
    if p != [] && s != [] {
      MatchesPrefixPointwise(p[1..], s[1..]);
      if |p| <= |s| && forall i :: 0 <= i < |p| ==> InClass(p[i], s[i]) {
        forall i | 0 <= i < |p[1..]| ensures InClass(p[1..][i], s[1..][i]) {
          assert p[1..][i] == p[i + 1] && s[1..][i] == s[i + 1];
        }
      }
      if MatchesPrefix(p, s) {
        forall i | 0 <= i < |p| ensures InClass(p[i], s[i]) {
          if i > 0 {
            assert p[1..][i - 1] == p[i] && s[1..][i - 1] == s[i];
          }
        }
      }
    }
  }

  /** The turning-point shape written out position by position. */
  predicate TurningPointShape(line: string) {
    |line| >= 18 &&
    (forall j :: 1 <= j <= 7 ==> '0' <= line[j] <= '9') &&
    line[8] in {'N', '|', 'S'} &&
    (forall j :: 9 <= j <= 16 ==> '0' <= line[j] <= '9') &&
    line[17] in {'E', '|', 'W'}
  }

  /** The class the turning-point pattern demands at position `i`. */
  function PatternClass(i: int): CharClass {
    if i == 7 then OneOf({'N', '|', 'S'}) else if i == 16 then OneOf({'E', '|', 'W'}) else Digit
  }

  lemma PatternClasses()
    ensures |TurningPointPattern| == 17
    ensures forall i :: 0 <= i < 17 ==> TurningPointPattern[i] == PatternClass(i)
  {
    var p := TurningPointPattern;
    assert forall i :: 0 <= i < 7 ==> p[i] == Digit;
    assert forall i :: 8 <= i < 16 ==> p[i] == Repeat(Digit, 8)[i - 8];
  }

  /** The regular expression admits exactly the lines of turning-point shape. */
  lemma TurningPointTest(line: string)
    ensures MatchesPrefix(TurningPointPattern, SubFrom(line, 1)) <==> TurningPointShape(line)
  {
    if TurningPointShape(line) {
      ShapeMatches(line);
    }
    if MatchesPrefix(TurningPointPattern, SubFrom(line, 1)) {
      MatchesShape(line);
    }
  }

  lemma ShapeMatches(line: string)
    requires TurningPointShape(line)
    ensures MatchesPrefix(TurningPointPattern, SubFrom(line, 1))
  {
    var p, s := TurningPointPattern, SubFrom(line, 1);
    PatternClasses();
    forall i | 0 <= i < 17 ensures InClass(p[i], s[i]) {
      assert s[i] == line[i + 1] && p[i] == PatternClass(i);
    }
    MatchesPrefixPointwise(p, s);
  }

  lemma MatchesShape(line: string)
    requires MatchesPrefix(TurningPointPattern, SubFrom(line, 1))
    ensures TurningPointShape(line)
  {
    var p, s := TurningPointPattern, SubFrom(line, 1);
    PatternClasses();
    MatchesPrefixPointwise(p, s);
    assert |line| >= 18;
    forall j | 1 <= j <= 7 || 9 <= j <= 16 ensures '0' <= line[j] <= '9' {
      assert InClass(p[j - 1], s[j - 1]) && p[j - 1] == Digit && s[j - 1] == line[j];
    }
    assert InClass(p[7], s[7]) && s[7] == line[8];
    assert InClass(p[16], s[16]) && s[16] == line[17];
  }

  /** Reads the day, month and year at `at`, `at + 2` and `at + 4` of `line`. */
  function ReadDate(line: string, at: nat): (d: Date)
    ensures DateAt(d, line, at)
  {
    SubAdjacent(line, at, 2, 2);
    SubAdjacent(line, at, 4, 2);
    Date(Sub(line, at, 2), Sub(line, at + 2, 2), Sub(line, at + 4, 2))
  }

  /** The turning-point reading of a C line: latitude parts from 1..8, longitude parts from 9..17, comment from 18. */
  function ReadTurningPoint(line: string): (t: Task)
    ensures t.TurningPoint?
    ensures AngleAt(t.latitude, line, 1, 2) && AngleAt(t.longitude, line, 9, 3)
    ensures TaskText(t) == SubFrom(line, 1)
  {
    SubThenRest(line, 9, 9);
    SubThenRest(line, 1, 8);
    TurningPoint(ReadAngle(line, 1, 2), ReadAngle(line, 9, 3), SubFrom(line, 18))
  }

  /**
   * The new-task reading of a C line: declared date and time at 1..12, flight
   * date at 13..18, task id at 19..22, number of turn points at 23..24 and the
   * comment from 25.
   */
  function ReadNewTask(line: string): (t: Task)
    ensures t.NewTask?
    ensures DateAt(t.declaredDate, line, 1) && ClockAt(t.declaredTime, line, 7) && DateAt(t.flightDate, line, 13)
    ensures |t.taskId| == SliceLength(|line|, 19, 4) && |t.numberOfTps| == SliceLength(|line|, 23, 2)
    ensures TaskText(t) == SubFrom(line, 1)
  {
    var d, c, f := ReadDate(line, 1), ReadClock(line, 7), ReadDate(line, 13);
    var id, n, rest := Sub(line, 19, 4), Sub(line, 23, 2), SubFrom(line, 25);
    SubThenRest(line, 23, 2);
    SubThenRest(line, 19, 4);
    SubThenRest(line, 13, 6);
    SubThenRest(line, 7, 6);
    SubThenRest(line, 1, 6);
    NewTask(d, c, f, id, n, rest)
  }

  /**
   * C: a turning point when the text from offset 1 matches the pattern, otherwise
   * a new task. Either way the task's parts, in line order, are the text after
   * the letter, each read at its offset with the width of its slice.
   */
  function DecodeC(line: string): (r: Record)
    ensures r.C? && r.raw == Some(line)
    ensures r.task.TurningPoint? <==> TurningPointShape(line)
    ensures TaskText(r.task) == SubFrom(line, 1)
    ensures r.task.TurningPoint? ==>
      AngleAt(r.task.latitude, line, 1, 2) && AngleAt(r.task.longitude, line, 9, 3)
    ensures r.task.NewTask? ==>
      DateAt(r.task.declaredDate, line, 1) && ClockAt(r.task.declaredTime, line, 7) &&
      DateAt(r.task.flightDate, line, 13) &&
      |r.task.taskId| == SliceLength(|line|, 19, 4) && |r.task.numberOfTps| == SliceLength(|line|, 23, 2)
  {
    TurningPointTest(line);
    if MatchesPrefix(TurningPointPattern, SubFrom(line, 1)) then
      C(Some(line), ReadTurningPoint(line))
    else
      C(Some(line), ReadNewTask(line))
  }

  /** A full-width turning point, written after any letter so that the line has the turning-point shape, decodes back. */
  lemma TurningPointEncode(letter: char, task: Task)
    requires task.TurningPoint?
    requires |task.latitude.degrees| == 2 && |task.latitude.minutes| == 2 && |task.latitude.decimalMinutes| == 3
    requires |task.longitude.degrees| == 3 && |task.longitude.minutes| == 2 && |task.longitude.decimalMinutes| == 3
    requires |task.latitude.direction| == 1 && |task.longitude.direction| == 1
    requires TurningPointShape([letter] + TaskText(task))
    ensures DecodeC([letter] + TaskText(task)).task == task
  {
    var line := [letter] + TaskText(task);
    var r := DecodeC(line).task;
    assert SubFrom(line, 1) == TaskText(task);
    ConcatInjective(AngleText(r.latitude), AngleText(r.longitude) + r.comment,
                    AngleText(task.latitude), AngleText(task.longitude) + task.comment);
    ConcatInjective(AngleText(r.longitude), r.comment, AngleText(task.longitude), task.comment);
    AngleTextInjective(r.latitude, task.latitude);
    AngleTextInjective(r.longitude, task.longitude);
  }

  /** A full-width new task, written after any letter so that the line lacks the turning-point shape, decodes back. */
  lemma NewTaskEncode(letter: char, task: Task)
    requires task.NewTask?
    requires |task.declaredDate.day| == 2 && |task.declaredDate.month| == 2 && |task.declaredDate.year| == 2
    requires |task.declaredTime.h| == 2 && |task.declaredTime.m| == 2 && |task.declaredTime.s| == 2
    requires |task.flightDate.day| == 2 && |task.flightDate.month| == 2 && |task.flightDate.year| == 2
    requires |task.taskId| == 4 && |task.numberOfTps| == 2
    requires !TurningPointShape([letter] + TaskText(task))
    ensures DecodeC([letter] + TaskText(task)).task == task
  {
    var line := [letter] + TaskText(task);
    var r := DecodeC(line).task;
    assert SubFrom(line, 1) == TaskText(task);
    var d, c, f := DateText(r.declaredDate), ClockText(r.declaredTime), DateText(r.flightDate);
    var d', c', f' := DateText(task.declaredDate), ClockText(task.declaredTime), DateText(task.flightDate);
    var tail, tail' := r.taskId + (r.numberOfTps + r.comment), task.taskId + (task.numberOfTps + task.comment);
    ConcatInjective(d, c + (f + tail), d', c' + (f' + tail'));
    ConcatInjective(c, f + tail, c', f' + tail');
    ConcatInjective(f, tail, f', tail');
    ConcatInjective(r.taskId, r.numberOfTps + r.comment, task.taskId, task.numberOfTps + task.comment);
    ConcatInjective(r.numberOfTps, r.comment, task.numberOfTps, task.comment);
    DateTextInjective(r.declaredDate, task.declaredDate);
    ClockTextInjective(r.declaredTime, task.declaredTime);
    DateTextInjective(r.flightDate, task.flightDate);
  }

  /** A date is determined by its text once the widths of its parts are fixed. */
  lemma DateTextInjective(d: Date, e: Date)
    requires DateText(d) == DateText(e) && |d.day| == |e.day| && |d.month| == |e.month|
    ensures d == e
  {
    ConcatInjective(d.day + d.month, d.year, e.day + e.month, e.year);
    ConcatInjective(d.day, d.month, e.day, e.month);
  }

  /** D: GPS qualifier at offset 1 and station id at 2..5; `raw` is null. */
  function DecodeD(line: string): (r: Record)
    ensures r.D? && r.raw == None
    ensures r.gpsQualifier + r.stationId == Sub(line, 1, 5)
    ensures |r.gpsQualifier| == SliceLength(|line|, 1, 1) && |r.stationId| == SliceLength(|line|, 2, 4)
  {
    SubAdjacent(line, 1, 1, 4);
    D(None, Sub(line, 1, 1), Sub(line, 2, 4))
  }

  /** E: time at 1..6, mnemonic at 7..9 and the comment from 10 on; `raw` is null. */
  function DecodeE(line: string): (r: Record)
    ensures r.E? && r.raw == None
    ensures ClockAt(r.time, line, 1) && |r.mnemonics| == SliceLength(|line|, 7, 3)
    ensures ClockText(r.time) + r.mnemonics + r.comment == SubFrom(line, 1)
  {
    SubAdjacent(line, 1, 6, 3);
    SubThenRest(line, 1, 9);
    E(None, ReadClock(line, 1), Sub(line, 7, 3), SubFrom(line, 10))
  }

  /** An event written after any letter, with a full-width time and a three-character mnemonic, decodes back. */
  lemma EventEncode(letter: char, time: Clock, mnemonics: string, comment: string)
    requires |time.h| == 2 && |time.m| == 2 && |time.s| == 2 && |mnemonics| == 3
    ensures DecodeE([letter] + ClockText(time) + mnemonics + comment) == E(None, time, mnemonics, comment)
  {
    var line := [letter] + ClockText(time) + mnemonics + comment;
    var r := DecodeE(line);
    assert SubFrom(line, 1) == ClockText(time) + mnemonics + comment;
    ConcatInjective(ClockText(r.time) + r.mnemonics, r.comment, ClockText(time) + mnemonics, comment);
    ConcatInjective(ClockText(r.time), r.mnemonics, ClockText(time), mnemonics);
    ClockTextInjective(r.time, time);
  }

  /** G: the security code is everything after the record letter. */
  function DecodeG(line: string): (r: Record)
    ensures r.G? && r.raw == Some(line)
    ensures |line| > 0 ==> [line[0]] + r.securityCode == line
  {
    G(Some(line), SubFrom(line, 1))
  }

  /** L: manufacturer at offset 1 and the comment from 2 on. */
  function DecodeL(line: string): (r: Record)
    ensures r.L? && r.raw == Some(line)
    ensures |r.manufacturer| == SliceLength(|line|, 1, 1)
    ensures |line| > 0 ==> [line[0]] + r.manufacturer + r.comment == line
  {
    SubThenRest(line, 1, 1);
    L(Some(line), Sub(line, 1, 1), SubFrom(line, 2))
  }

  /** A log-book line is its letter, the manufacturer character and the comment, and decodes back to them. */
  lemma LogBookEncode(letter: char, manufacturer: char, comment: string)
    ensures DecodeL([letter, manufacturer] + comment)
      == L(Some([letter, manufacturer] + comment), [manufacturer], comment)
  {
    var line := [letter, manufacturer] + comment;
    var r := DecodeL(line);
    assert [line[0]] + r.manufacturer + r.comment == line;
    ConcatInjective([line[0]] + r.manufacturer, r.comment, [letter, manufacturer], comment);
  }

  /**
   * `getRecord`: the record for the upper-cased first character, or None
   * (PHP `false`) for an empty line or a letter with no record class.
   */
  function GetRecord(line: string): (r: Option<Record>)
    ensures r.Some? <==> |line| > 0 && 'A' <= Upper(line[0]) <= 'L'
    ensures r.Some? ==> Letter(r.value) == Upper(line[0])
  {
    if |line| == 0 then None
    else
      var letter := Upper(line[0]);
      if 'A' <= letter <= 'L' then Some(RecordOf(letter, line)) else None
  }

  /** The record class `IGC_<letter>_Record` built from the line. */
  function RecordOf(letter: char, line: string): (r: Record)
    requires 'A' <= letter <= 'L'
    ensures Letter(r) == letter
  {
    if letter <= 'F' then RecordAToF(letter, line) else RecordGToL(letter, line)
  }

  function RecordAToF(letter: char, line: string): (r: Record)
    requires 'A' <= letter <= 'F'
    ensures Letter(r) == letter
  {
    match letter
    case 'A' => var r := DecodeA(line); assert r.A?; r
    case 'B' => B(None, BRecord.Decode(line))
    case 'C' => var r := DecodeC(line); assert r.C?; r
    case 'D' => var r := DecodeD(line); assert r.D?; r
    case 'E' => var r := DecodeE(line); assert r.E?; r
    case 'F' => F
  }

  function RecordGToL(letter: char, line: string): (r: Record)
    requires 'G' <= letter <= 'L'
    ensures Letter(r) == letter
  {
    match letter
    case 'G' => var r := DecodeG(line); assert r.G?; r
    case 'H' => H(Some(line), HRecord.Decode(line))
    case 'I' => I(Some(line), IRecord.Decode(line))
    case 'J' => J(None, IRecord.Decode(line))
    case 'K' => K
    case 'L' => var r := DecodeL(line); assert r.L?; r
  }

  /**
   * `getRecord` hands the unchanged line to the constructor of the class named
   * by its upper-cased first letter: the decoder of that letter, with the line
   * as `raw` where the constructor stores it, and a field-less F or K.
   */
  lemma Dispatch(line: string)
    requires |line| > 0
    ensures Upper(line[0]) == 'A' ==> GetRecord(line) == Some(DecodeA(line))
    ensures Upper(line[0]) == 'B' ==> GetRecord(line) == Some(B(None, BRecord.Decode(line)))
    ensures Upper(line[0]) == 'C' ==> GetRecord(line) == Some(DecodeC(line))
    ensures Upper(line[0]) == 'D' ==> GetRecord(line) == Some(DecodeD(line))
    ensures Upper(line[0]) == 'E' ==> GetRecord(line) == Some(DecodeE(line))
    ensures Upper(line[0]) == 'F' ==> GetRecord(line) == Some(F)
    ensures Upper(line[0]) == 'G' ==> GetRecord(line) == Some(DecodeG(line))
    ensures Upper(line[0]) == 'H' ==> GetRecord(line) == Some(H(Some(line), HRecord.Decode(line)))
    ensures Upper(line[0]) == 'I' ==> GetRecord(line) == Some(I(Some(line), IRecord.Decode(line)))
    ensures Upper(line[0]) == 'J' ==> GetRecord(line) == Some(J(None, IRecord.Decode(line)))
    ensures Upper(line[0]) == 'K' ==> GetRecord(line) == Some(K)
    ensures Upper(line[0]) == 'L' ==> GetRecord(line) == Some(DecodeL(line))
  {
    var letter := Upper(line[0]);
    if 'A' <= letter <= 'F' {
      assert GetRecord(line) == Some(RecordAToF(letter, line));
    } else if 'G' <= letter <= 'L' {
      assert GetRecord(line) == Some(RecordGToL(letter, line));
    }
  }

  /** The letters whose constructors store the line in `raw`. */
  predicate StoresLine(letter: char) {
    letter == 'A' || letter == 'C' || letter == 'G' || letter == 'H' || letter == 'I' || letter == 'L'
  }

  /**
   * `raw` is the line for A, C, G, H, I and L and null for the others; `type`
   * is the record letter except for F and K, where it is null.
   */
  lemma RawAndType(line: string)
    requires GetRecord(line).Some?
    ensures Raw(GetRecord(line).value) == if StoresLine(Upper(line[0])) then Some(line) else None
    ensures TypeTag(GetRecord(line).value) == if Upper(line[0]) == 'F' || Upper(line[0]) == 'K' then None else Some(Upper(line[0]))
  {
    var r := GetRecord(line).value;
    match Upper(line[0])
    case 'A' => assert r == DecodeA(line);
    case 'C' => assert r == DecodeC(line);
    case 'D' => assert r == DecodeD(line);
    case 'E' => assert r == DecodeE(line);
    case 'G' => assert r == DecodeG(line);
    case 'L' => assert r == DecodeL(line);
    case _ =>
  }

  /**
   * The case of the first letter does not matter: two lines that differ only
   * there decode to the same record, up to the `raw` copy of the line.
   */
  lemma LetterCaseIgnored(line: string, other: string)
    requires SameAfterFirst(line, other) && Upper(line[0]) == Upper(other[0])
    ensures WithoutRaw(GetRecord(line)) == WithoutRaw(GetRecord(other))
  {
    var letter := Upper(line[0]);
    if 'A' <= letter <= 'F' {
      AToFIgnoreLetter(letter, line, other);
    } else if 'G' <= letter <= 'L' {
      GToLIgnoreLetter(letter, line, other);
    }
  }

  lemma AToFIgnoreLetter(letter: char, line: string, other: string)
    requires 'A' <= letter <= 'F' && SameAfterFirst(line, other)
    ensures WithoutRaw(Some(RecordAToF(letter, line))) == WithoutRaw(Some(RecordAToF(letter, other)))
  {
    match letter
    case 'B' => BRecord.DecodeIgnoresLetter(line, other);
    case 'C' => CIgnoresLetter(line, other);
    case 'A' =>
      SubIgnoresFirst(line, other, 1, 1);
      SubIgnoresFirst(line, other, 2, 5);
      SubIgnoresFirst(line, other, 6, 0);
      assert RecordAToF(letter, line) == DecodeA(line);
      assert RecordAToF(letter, other) == DecodeA(other);
    case 'D' =>
      SubIgnoresFirst(line, other, 1, 1);
      SubIgnoresFirst(line, other, 2, 4);
      assert RecordAToF(letter, line) == DecodeD(line);
      assert RecordAToF(letter, other) == DecodeD(other);
    case 'E' =>
      assert RecordAToF(letter, line) == DecodeE(line);
      assert RecordAToF(letter, other) == DecodeE(other);
      SubIgnoresFirst(line, other, 1, 2);
      SubIgnoresFirst(line, other, 3, 2);
      SubIgnoresFirst(line, other, 5, 2);
      SubIgnoresFirst(line, other, 7, 3);
      SubIgnoresFirst(line, other, 10, 0);
    case 'F' =>
  }

  lemma GToLIgnoreLetter(letter: char, line: string, other: string)
    requires 'G' <= letter <= 'L' && SameAfterFirst(line, other)
    ensures WithoutRaw(Some(RecordGToL(letter, line))) == WithoutRaw(Some(RecordGToL(letter, other)))
  {
    match letter
    case 'G' =>
      SubIgnoresFirst(line, other, 1, 0);
    case 'H' =>
      HRecord.DecodeIgnoresLetter(line, other);
      assert RecordGToL(letter, line) == H(Some(line), HRecord.Decode(line));
      assert RecordGToL(letter, other) == H(Some(other), HRecord.Decode(other));
    case 'I' =>
      IRecord.DecodeIgnoresLetter(line, other);
      assert RecordGToL(letter, line) == I(Some(line), IRecord.Decode(line));
      assert RecordGToL(letter, other) == I(Some(other), IRecord.Decode(other));
    case 'J' =>
      IRecord.DecodeIgnoresLetter(line, other);
      assert RecordGToL(letter, line) == J(None, IRecord.Decode(line));
      assert RecordGToL(letter, other) == J(None, IRecord.Decode(other));
    case 'K' =>
    case 'L' =>
      SubIgnoresFirst(line, other, 1, 1);
      SubIgnoresFirst(line, other, 2, 0);
  }

  lemma CIgnoresLetter(line: string, other: string)
    requires SameAfterFirst(line, other)
    ensures DecodeC(line).task == DecodeC(other).task
  {
    SlicesIgnoreFirst(line, other);
    assert SubFrom(line, 1) == SubFrom(other, 1);
    assert ReadTurningPoint(line) == ReadTurningPoint(other);
    assert ReadNewTask(line) == ReadNewTask(other);
  }

  /** `b...` and `B...` decode to the very same fix record. */
  lemma LowerCaseFix(rest: string)
    ensures GetRecord("b" + rest) == GetRecord("B" + rest)
    ensures GetRecord("B" + rest) == Some(B(None, BRecord.Decode("B" + rest)))
  {
    assert SameAfterFirst("b" + rest, "B" + rest) by {
      assert ("b" + rest)[1..] == rest == ("B" + rest)[1..];
    }
    LetterCaseIgnored("b" + rest, "B" + rest);
  }

  /** The line `C0100000N00100000W comment` is a turning point. */
  lemma TurningPointExample()
    ensures GetRecord("C0100000N00100000W comment").value.task.TurningPoint?
  {
    var line := "C0100000N00100000W comment";
    TurningPointExampleShape();
    Dispatch(line);
  }

  lemma TurningPointExampleShape()
    ensures TurningPointShape("C0100000N00100000W comment")
  {
    var line := "C0100000N00100000W comment";
    assert line[1] == '0' && line[2] == '1' && line[3] == '0' && line[4] == '0' && line[5] == '0';
    assert line[6] == '0' && line[7] == '0' && line[8] == 'N';
    assert line[9] == '0' && line[10] == '0' && line[11] == '1' && line[12] == '0' && line[13] == '0';
    assert line[14] == '0' && line[15] == '0' && line[16] == '0' && line[17] == 'W';
  }

  /** The line `C150707153000150707000112 ` declares a new task. */
  lemma NewTaskExample()
    ensures GetRecord("C150707153000150707000112 ").value.task.NewTask?
  {
    var line := "C150707153000150707000112 ";
    assert line[8] == '5';
    Dispatch(line);
  }
}
