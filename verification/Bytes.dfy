/** Bytes, and 32-bit words as they lie in memory, lowest byte first. */
module Bytes {

  type Byte = b: int | 0 <= b < 256

  type Word = w: int | 0 <= w < 0x1_0000_0000

  function WordBytes(w: Word): (b: seq<Byte>)
    ensures |b| == 4
  {
    [w % 0x100, w / 0x100 % 0x100, w / 0x1_0000 % 0x100, w / 0x100_0000]
  }

  function WordAt(b: seq<Byte>, i: nat): Word
    requires i + 4 <= |b|
  {
    var b0: int, b1: int, b2: int, b3: int := b[i], b[i + 1], b[i + 2], b[i + 3];
    b0 + 0x100 * b1 + 0x1_0000 * b2 + 0x100_0000 * b3
  }

  lemma WordRoundTrip(w: Word)
    ensures WordAt(WordBytes(w), 0) == w
  {
    assert w == w / 0x100 * 0x100 + w % 0x100;
    assert w / 0x100 == w / 0x1_0000 * 0x100 + w / 0x100 % 0x100;
    assert w / 0x1_0000 == w / 0x100_0000 * 0x100 + w / 0x1_0000 % 0x100;
  }

  lemma LowestByte(low: Byte, rest: nat)
    ensures (low + 0x100 * rest) % 0x100 == low && (low + 0x100 * rest) / 0x100 == rest
  {
  }

  lemma BytesRoundTrip(b: seq<Byte>, i: nat)
    requires i + 4 <= |b|
    ensures WordBytes(WordAt(b, i)) == b[i..i + 4]
  {
    var w: int := WordAt(b, i);
    var b1: int, b2: int, b3: int := b[i + 1], b[i + 2], b[i + 3];
    LowestByte(b[i], b1 + 0x100 * (b2 + 0x100 * b3));
    LowestByte(b[i + 1], b2 + 0x100 * b3);
    LowestByte(b[i + 2], b3);
    assert w / 0x1_0000 == w / 0x100 / 0x100;
    assert w / 0x100_0000 == w / 0x1_0000 / 0x100;
  }
}
