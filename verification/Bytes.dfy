/** Bytes and the fixed-width encodings that the wire formats use. */
module Bytes {

  type byte = x: int | 0 <= x < 256

  const TWO_16: nat := 0x1_0000
  const TWO_32: nat := 0x1_0000_0000
  const TWO_64: nat := 0x1_0000_0000_0000_0000

  /** The low 32 bits of a number, least significant byte first. */
  function Le32(x: nat): (b: seq<byte>)
    ensures |b| == 4
  {
    [x % 256, x / 256 % 256, x / 256 / 256 % 256, x / 256 / 256 / 256 % 256]
  }

  function FromLe32(b: seq<byte>): (x: nat)
    requires |b| == 4
    ensures x < TWO_32
  {
    var b0: int, b1: int, b2: int, b3: int := b[0], b[1], b[2], b[3];
    b0 + 0x100 * b1 + 0x1_0000 * b2 + 0x100_0000 * b3
  }

  lemma Le32RoundTrip(x: nat)
    ensures FromLe32(Le32(x)) == x % TWO_32
  {
    var q1 := x / 256;
    var q2 := q1 / 256;
    var q3 := q2 / 256;
    var q4 := q3 / 256;
    assert x == FromLe32(Le32(x)) + TWO_32 * q4;
    ModUnique(x, FromLe32(Le32(x)), q4);
  }

  lemma ModUnique(x: nat, r: nat, q: nat)
    requires x == r + TWO_32 * q && r < TWO_32
    ensures x % TWO_32 == r
  {
  }

  /** The low 16 bits of a number, most significant byte first. */
  function Be16(x: nat): (b: seq<byte>)
    ensures |b| == 2
  {
    [x / 0x100 % 256, x % 256]
  }

  function FromBe16(hi: byte, lo: byte): (x: nat)
    ensures x < TWO_16
  {
    var h: int, l: int := hi, lo;
    0x100 * h + l
  }

  lemma Be16RoundTrip(x: nat)
    ensures FromBe16(Be16(x)[0], Be16(x)[1]) == x % TWO_16
  {
    var q1 := x / 256;
    assert x == FromBe16(Be16(x)[0], Be16(x)[1]) + TWO_16 * (q1 / 256);
  }

  lemma Be16Injective(hi: byte, lo: byte)
    ensures Be16(FromBe16(hi, lo)) == [hi, lo]
  {
  }

  /** The characters of a text. */
  function Ascii(text: string): seq<byte>
    requires forall i :: 0 <= i < |text| ==> text[i] < 128 as char
  {
    seq(|text|, i requires 0 <= i < |text| => text[i] as byte)
  }
}
