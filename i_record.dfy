/**
 * The I record (B-record extension definition): start byte number, finish byte
 * number and mnemonic as three adjacent slices. The J record (K-record
 * extension definition) has the same layout.
 */
module IRecord {
  import opened Text

  datatype Definition = Definition(startByte: string, finishByte: string, mnemonic: string)

  /**
   * Decodes an I (or J) line: offsets 1..2, 3..4 and 5..7. Each field is as wide
   * as its slot unless the line ends inside that slot.
   */
  function Decode(line: string): (d: Definition)
    ensures d.startByte + d.finishByte + d.mnemonic == Sub(line, 1, 7)
    ensures |d.startByte| == SliceLength(|line|, 1, 2)
    ensures |d.finishByte| == SliceLength(|line|, 3, 2)
    ensures |d.mnemonic| == SliceLength(|line|, 5, 3)
  {
    SubAdjacent(line, 1, 2, 2);
    SubAdjacent(line, 1, 4, 3);
    Definition(Sub(line, 1, 2), Sub(line, 3, 2), Sub(line, 5, 3))
  }

  /** Writing the three fields after the record letter and decoding gives them back, whatever follows. */
  lemma DecodeEncode(letter: char, d: Definition, tail: string)
    requires |d.startByte| == 2 && |d.finishByte| == 2 && |d.mnemonic| == 3
    ensures Decode([letter] + d.startByte + d.finishByte + d.mnemonic + tail) == d
  {
    var line := [letter] + d.startByte + d.finishByte + d.mnemonic + tail;
    assert line == [letter] + d.startByte + (d.finishByte + d.mnemonic + tail);
    SubOfJoin([letter], d.startByte, d.finishByte + d.mnemonic + tail);
    assert line == ([letter] + d.startByte) + d.finishByte + (d.mnemonic + tail);
    SubOfJoin([letter] + d.startByte, d.finishByte, d.mnemonic + tail);
    SubOfJoin([letter] + d.startByte + d.finishByte, d.mnemonic, tail);
  }

  /**
   * An I line that declares no extensions ("I00" and a line ending) splits as
   * substr makes it: the count is the start byte and the line ending the finish byte.
   */
  lemma CountOnly(letter: char, count: string, ending: char)
    requires |count| == 2
    ensures Decode([letter] + count + [ending]) == Definition(count, [ending], "")
  {
    var line := [letter] + count + [ending];
    assert line[1..3] == count && line[3..4] == [ending];
  }

  /** The record letter is not read: lines that differ only there decode alike. */
  lemma DecodeIgnoresLetter(line: string, other: string)
    requires SameAfterFirst(line, other)
    ensures Decode(line) == Decode(other)
  {
    SlicesIgnoreFirst(line, other);
  }
}
