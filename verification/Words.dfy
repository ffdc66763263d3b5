/** 32-bit words in memory and on disk, lowest byte first. */
module Words {
  import opened CStrings

  type Word = v: nat | v < 0x1_0000_0000

  function WordBytes(v: Word): (b: seq<Byte>)
    ensures |b| == 4
  {
    [v % 256, v / 256 % 256, v / 65536 % 256, v / 16777216 % 256]
  }

  function WordAt(b: seq<Byte>, o: nat): (v: nat)
    requires o + 4 <= |b|
    ensures v < 0x1_0000_0000
  {
    b[o] as int + 256 * (b[o + 1] as int) + 65536 * (b[o + 2] as int) + 16777216 * (b[o + 3] as int)
  }

  /** The bytes of a word are its digits to the base 256, the lowest first. */
  lemma {:induction false} BytesOfWord(v: Word)
    ensures var b := WordBytes(v);
      b[0] as int + 256 * (b[1] as int) + 65536 * (b[2] as int) + 16777216 * (b[3] as int) == v
  {
    assert v / 256 / 256 == v / 65536 && v / 65536 / 256 == v / 16777216;
  }

  ghost predicate WordIs(b: seq<Byte>, o: nat, v: Word) {
    o + 4 <= |b| && b[o..o + 4] == WordBytes(v)
  }

  /** A word reads back as it was written. */
  lemma {:induction false} ReadWord(b: seq<Byte>, o: nat, v: Word)
    requires WordIs(b, o, v)
    ensures WordAt(b, o) == v
  {
    var w := b[o..o + 4];
    assert b[o] == w[0] && b[o + 1] == w[1] && b[o + 2] == w[2] && b[o + 3] == w[3];
    BytesOfWord(v);
  }
}
