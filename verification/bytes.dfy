/** Bytes, fixed-width little-endian words and the checksum's storage form. */
module Bytes {
  type Byte = x: int | 0 <= x < 0x100
  type Word = x: int | 0 <= x < 0x1_0000_0000

  // ----- Fixed32 -----

  function EncodeFixed32(w: Word): (r: seq<Byte>)
    ensures |r| == 4
  {
    [w % 0x100, w / 0x100 % 0x100, w / 0x1_0000 % 0x100, w / 0x100_0000]
  }

  function DecodeFixed32(b: seq<Byte>): Word
    requires |b| == 4
  {
    b[0] as int + 0x100 * b[1] as int + 0x1_0000 * b[2] as int + 0x100_0000 * b[3] as int
  }

  /** Four bytes, the lowest first. */
  lemma Fixed32Is(w: Word, b: seq<Byte>)
    ensures EncodeFixed32(w) == b <==> |b| == 4 && w == b[0] as int + 0x100 * b[1] as int + 0x1_0000 * b[2] as int + 0x100_0000 * b[3] as int
  {
    Fixed32RoundTrip(w);
    if |b| == 4 {
      Fixed32Back(b);
    }
    hide EncodeFixed32;
  }

  lemma Fixed32RoundTrip(w: Word)
    ensures DecodeFixed32(EncodeFixed32(w)) == w
  {
    var a := w / 0x100;
    var b := a / 0x100;
    assert w / 0x1_0000 == b;
    assert w / 0x100_0000 == b / 0x100;
  }

  lemma Fixed32Back(b: seq<Byte>)
    requires |b| == 4
    ensures EncodeFixed32(DecodeFixed32(b)) == b
  {
    var w, x, y := DecodeFixed32(b), b[2] as int + 0x100 * b[3] as int, b[3] as int;
    assert w == b[0] as int + 0x100 * (b[1] as int + 0x100 * x);
    assert w / 0x100 == b[1] as int + 0x100 * x;
    assert w / 0x1_0000 == x;
    assert w / 0x100_0000 == y;
  }

  // ----- The checksum -----

  /** One step of a checksum: its state and the next byte. */
  type CrcStep = (Word, Byte) -> Word

  function Extend(step: CrcStep, c: Word, data: seq<Byte>): Word {
    if data == [] then c else step(Extend(step, c, data[..|data| - 1]), data[|data| - 1])
  }

  function Crc(step: CrcStep, data: seq<Byte>): Word { Extend(step, 0, data) }

  /** Extending a stored checksum is checksumming the concatenation. */
  lemma {:induction false} ExtendConcat(step: CrcStep, c: Word, a: seq<Byte>, b: seq<Byte>)
    ensures Extend(step, Extend(step, c, a), b) == Extend(step, c, a + b)
    decreases |b|
  {
    if b == [] {
      assert a + b == a;
    } else {
      var k := |b| - 1;
      ExtendConcat(step, c, a, b[..k]);
      assert (a + b)[..|a + b| - 1] == a + b[..k];
    }
  }

  const MASK_DELTA: Word := 0xa282_ead8

  /** Rotate right by 15 bits and add a constant. */
  function Mask(crc: Word): Word {
    (crc / 0x8000 + crc % 0x8000 * 0x2_0000 + MASK_DELTA) % 0x1_0000_0000
  }

  function Unmask(masked: Word): Word {
    var rot := (masked + 0x1_0000_0000 - MASK_DELTA) % 0x1_0000_0000;
    rot / 0x2_0000 + rot % 0x2_0000 * 0x8000
  }

  lemma MaskRoundTrip(crc: Word)
    ensures Unmask(Mask(crc)) == crc
  {
    var hi, lo := crc / 0x8000, crc % 0x8000;
    var rot := hi + lo * 0x2_0000;
    assert 0 <= rot < 0x1_0000_0000;
    assert (Mask(crc) + 0x1_0000_0000 - MASK_DELTA) % 0x1_0000_0000 == rot;
    assert rot / 0x2_0000 == lo && rot % 0x2_0000 == hi;
  }

  /** Rotating right by 15 bits is dividing by 2^15 modulo 2^32 - 1. */
  lemma MaskRotates(crc: Word)
    ensures exists rot: Word, n: nat ::
      Mask(crc) == (rot + 0xa282_ead8) % 0x1_0000_0000 && rot * 0x8000 == crc + n * 0xFFFF_FFFF
  {
    var hi, lo := crc / 0x8000, crc % 0x8000;
    var rot: Word := hi + lo * 0x2_0000;
    assert rot * 0x8000 == crc + lo * 0xFFFF_FFFF;
    assert Mask(crc) == (rot + 0xa282_ead8) % 0x1_0000_0000;
  }

  lemma UnmaskBack(masked: Word)
    ensures Mask(Unmask(masked)) == masked
  {
    var rot := (masked + 0x1_0000_0000 - MASK_DELTA) % 0x1_0000_0000;
    var hi, lo := rot / 0x2_0000, rot % 0x2_0000;
    var crc := Unmask(masked);
    assert crc == hi + lo * 0x8000;
    assert crc / 0x8000 == lo && crc % 0x8000 == hi;
    assert (rot + MASK_DELTA) % 0x1_0000_0000 == masked;
  }
}
