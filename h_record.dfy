/**
 * The H record (header): a source character, a three-character mnemonic, and
 * the text from offset 4 split on ':' into a key and a value.
 */
module HRecord {
  import opened Optional
  import opened Text

  /** `value` is None where PHP reads the missing second element of the split as null. */
  datatype Header = Header(source: string, mnemonic: string, key: string, value: Option<string>)

  /**
   * Decodes an H line: source at offset 1, mnemonic at 2..4, and the text from
   * offset 4 split on ':' into the key (the first piece) and the value (the
   * second piece, null when there is none).
   */
  function Decode(line: string): (h: Header)
    ensures h.source + h.mnemonic == Sub(line, 1, 4)
    ensures |h.source| == SliceLength(|line|, 1, 1) && |h.mnemonic| == SliceLength(|line|, 2, 3)
  {
    SubAdjacent(line, 1, 1, 3);
    var parts := Explode(SubFrom(line, 4), ':');
    Header(Sub(line, 1, 1), Sub(line, 2, 3), parts[0], if |parts| == 1 then None else Some(parts[1]))
  }

  /** The source character and a three-character mnemonic written after any letter decode back, whatever follows. */
  lemma SourceAndMnemonic(letter: char, source: char, mnemonic: string, rest: string)
    requires |mnemonic| == 3
    ensures Decode([letter, source] + mnemonic + rest).source == [source]
    ensures Decode([letter, source] + mnemonic + rest).mnemonic == mnemonic
  {
    var line := [letter, source] + mnemonic + rest;
    var h := Decode(line);
    assert line == [letter] + ([source] + mnemonic) + rest;
    SubOfJoin([letter], [source] + mnemonic, rest);
    ConcatInjective(h.source, h.mnemonic, [source], mnemonic);
  }

  /**
   * The key is the text from offset 4 up to the first ':', so it starts with the
   * mnemonic's last character. The value is the text between the first and the
   * second ':', and whatever follows a second ':' is dropped. Without a ':' the
   * key is the whole remainder and the value is null.
   */
  lemma KeyAndValue(line: string)
    ensures ':' !in Decode(line).key
    ensures Decode(line).value.None? <==> ':' !in SubFrom(line, 4)
    ensures Decode(line).value.None? ==> Decode(line).key == SubFrom(line, 4)
    ensures Decode(line).value.Some? ==>
      var pair := Decode(line).key + [':'] + Decode(line).value.value;
      ':' !in Decode(line).value.value && pair <= SubFrom(line, 4) &&
      (|pair| == |SubFrom(line, 4)| || SubFrom(line, 4)[|pair|] == ':')
  {
    var rest := SubFrom(line, 4);
    var parts := Explode(rest, ':');
    ExplodeJoin(rest, ':');
    if |parts| > 1 {
      assert rest == parts[0] + [':'] + Join(parts[1..], ':');
      var tail := Join(parts[1..], ':');
      assert tail == parts[1] || tail == parts[1] + [':'] + Join(parts[2..], ':') by {
        assert parts[1..][0] == parts[1] && parts[1..][1..] == parts[2..];
      }
    }
  }

  /** The key begins with the character that also ends the mnemonic (offset 4), unless that character is the ':'. */
  lemma KeyOverlapsMnemonic(line: string)
    requires |line| > 4 && line[4] != ':'
    ensures |Decode(line).mnemonic| == 3 && 0 < |Decode(line).key|
    ensures Decode(line).key[0] == Decode(line).mnemonic[2] == line[4]
  {
    var h := Decode(line);
    var rest := SubFrom(line, 4);
    KeyAndValue(line);
    assert rest[0] == line[4];
    if h.value.Some? {
      var pair := h.key + [':'] + h.value.value;
      assert pair <= rest;
      assert h.key[0] == pair[0];
    }
  }

  /** The record letter is not read: lines that differ only there decode alike. */
  lemma DecodeIgnoresLetter(line: string, other: string)
    requires SameAfterFirst(line, other)
    ensures Decode(line) == Decode(other)
  {
    SlicesIgnoreFirst(line, other);
  }
}
