/** Unsigned 32-bit words as four bytes, the lowest first. */
module LittleEndian {

  type Byte = x: int | 0 <= x < 256
  type Word = x: int | 0 <= x < 0x1_0000_0000

  function Le(w: Word): (b: seq<Byte>)
    ensures |b| == 4
  {
    [w % 0x100, w / 0x100 % 0x100, w / 0x1_0000 % 0x100, w / 0x100_0000]
  }

  function FromLe(b: seq<Byte>): Word
    requires |b| == 4
  {
    var b0: int, b1: int, b2: int, b3: int := b[0], b[1], b[2], b[3];
    b0 + 0x100 * b1 + 0x1_0000 * b2 + 0x100_0000 * b3
  }

  lemma {:induction false} LeRoundTrip(w: Word)
    ensures FromLe(Le(w)) == w
  {
    assert w / 0x1_0000 == w / 0x100 / 0x100 && w / 0x100_0000 == w / 0x100 / 0x100 / 0x100;
  }

  /** The word at offset `o`. */
  function ReadU32(b: seq<Byte>, o: nat): Word
    requires o + 4 <= |b|
  {
    FromLe(b[o..o + 4])
  }

  /** The four bytes count from the lowest up. */
  lemma {:induction false} ReadsLowestFirst(b: seq<Byte>, o: nat)
    requires o + 4 <= |b|
    ensures ReadU32(b, o) as int == b[o] as int + 256 * b[o + 1] as int + 65536 * b[o + 2] as int + 16777216 * b[o + 3] as int
  {
  }
}
