/**
 * The check value of the CRC: what it gives for the figures 1 to 9.
 */
module CrcVector {
  import opened Crc16
  import opened CrcCode

  lemma FedOne(bits: Bits, bit: bool)
    ensures WordFeed(0, bits + [bit]) == WordStep(WordFeed(0, bits), bit)
  {
    assert (bits + [bit])[..|bits|] == bits;
  }

  ghost predicate FedTo(bits: Bits, crc: bv16) {
    WordFeed(0, bits) == crc
  }

  lemma FedBit(bits: Bits, crc: bv16, bit: bool, next: bv16)
    requires FedTo(bits, crc) && next == WordStep(crc, bit)
    ensures FedTo(bits + [bit], next)
  {
    FedOne(bits, bit);
  }

  lemma InARow<X>(s: seq<X>, a: X, b: X, c: X, d: X)
    ensures s + [a] + [b] + [c] + [d] == s + [a, b, c, d]
  {
  }

  lemma FedFour(bits: Bits, crc: bv16, a: bool, b: bool, c: bool, d: bool, next: bv16)
    requires FedTo(bits, crc) && next == WordStep(WordStep(WordStep(WordStep(crc, a), b), c), d)
    ensures FedTo(bits + [a, b, c, d], next)
  {
    var c1 := WordStep(crc, a);
    var c2 := WordStep(c1, b);
    var c3 := WordStep(c2, c);
    FedBit(bits, crc, a, c1);
    FedBit(bits + [a], c1, b, c2);
    FedBit(bits + [a] + [b], c2, c, c3);
    FedBit(bits + [a] + [b] + [c], c3, d, next);
    InARow(bits, a, b, c, d);
  }

  lemma FourAndFour<X>(s: seq<X>, a: X, b: X, c: X, d: X, e: X, f: X, g: X, h: X)
    ensures s + [a, b, c, d] + [e, f, g, h] == s + [a, b, c, d, e, f, g, h]
  {
  }

  function FourSteps(crc: bv16, a: bool, b: bool, c: bool, d: bool): bv16 {
    WordStep(WordStep(WordStep(WordStep(crc, a), b), c), d)
  }

  lemma FedEight(bits: Bits, crc: bv16, a: bool, b: bool, c: bool, d: bool, e: bool, f: bool, g: bool, h: bool, half: bv16, next: bv16)
    requires FedTo(bits, crc) && half == FourSteps(crc, a, b, c, d) && next == FourSteps(half, e, f, g, h)
    ensures FedTo(bits + [a, b, c, d, e, f, g, h], next)
  {
    FedFour(bits, crc, a, b, c, d, half);
    FedFour(bits + [a, b, c, d], half, e, f, g, h, next);
    FourAndFour(bits, a, b, c, d, e, f, g, h);
  }

  function ByteStep(crc: bv16, b: bv8): bv16 {
    FourSteps(FourSteps(crc, b & 0x80 != 0, b & 0x40 != 0, b & 0x20 != 0, b & 0x10 != 0),
              b & 0x08 != 0, b & 0x04 != 0, b & 0x02 != 0, b & 0x01 != 0)
  }

  lemma FedByte(bits: Bits, crc: bv16, b: bv8, next: bv16)
    requires FedTo(bits, crc) && next == ByteStep(crc, b)
    ensures FedTo(bits + ByteBits(b), next)
  {
    var half := FourSteps(crc, b & 0x80 != 0, b & 0x40 != 0, b & 0x20 != 0, b & 0x10 != 0);
    FedEight(bits, crc, b & 0x80 != 0, b & 0x40 != 0, b & 0x20 != 0, b & 0x10 != 0,
             b & 0x08 != 0, b & 0x04 != 0, b & 0x02 != 0, b & 0x01 != 0, half, next);
  }

  lemma FedNext(buf: seq<bv8>, crc: bv16, b: bv8, next: bv16)
    requires FedTo(BitsOf(buf), crc) && next == ByteStep(crc, b)
    ensures FedTo(BitsOf(buf + [b]), next)
  {
    FedByte(BitsOf(buf), crc, b, next);
    BitsOfAppend(buf, [b]);
    BitsOfOne(b);
  }

  lemma Padding(buf: seq<bv8>)
    ensures BitsOf(buf + [0] + [0]) == Message(buf, true)
  {
    BitsOfAppend(buf + [0], [0]);
    BitsOfAppend(buf, [0]);
    BitsOfOne(0);
    assert ByteBits(0) + ByteBits(0) == Zeros(16);
  }

  lemma Figures1To5(s: seq<bv8>)
    requires s == [0x31] + [0x32] + [0x33] + [0x34] + [0x35]
    ensures FedTo(BitsOf(s), 0xa367)
  {
    var s1: seq<bv8> := [] + [0x31];
    FedNext([], 0, 0x31, 0x0031);
    FedNext(s1, 0x0031, 0x32, 0x3132);
    FedNext(s1 + [0x32], 0x3132, 0x33, 0x1441);
    FedNext(s1 + [0x32] + [0x33], 0x1441, 0x34, 0x1381);
    FedNext(s1 + [0x32] + [0x33] + [0x34], 0x1381, 0x35, 0xa367);
    assert s1 == [0x31];
  }

  lemma Figures6To9(s: seq<bv8>, t: seq<bv8>)
    requires FedTo(BitsOf(s), 0xa367) && t == s + [0x36] + [0x37] + [0x38] + [0x39]
    ensures FedTo(BitsOf(t + [0] + [0]), 0x31c3)
  {
    FedNext(s, 0xa367, 0x36, 0xe2bf);
    FedNext(s + [0x36], 0xe2bf, 0x37, 0x625b);
    FedNext(s + [0x36] + [0x37], 0x625b, 0x38, 0x17dc);
    FedNext(s + [0x36] + [0x37] + [0x38], 0x17dc, 0x39, 0xbeef);
    FedNext(t, 0xbeef, 0, 0xa915);
    FedNext(t + [0], 0xa915, 0, 0x31c3);
  }

  // CRC-16/XMODEM: generator 0x1021, most significant bit first, starting from zero.
  lemma CheckValue()
    ensures CrcOf([0x31, 0x32, 0x33, 0x34, 0x35, 0x36, 0x37, 0x38, 0x39]) == 0x31c3
  {
    var s: seq<bv8> := [0x31] + [0x32] + [0x33] + [0x34] + [0x35];
    var t: seq<bv8> := s + [0x36] + [0x37] + [0x38] + [0x39];
    Figures1To5(s);
    Figures6To9(s, t);
    Padding(t);
    assert t == [0x31, 0x32, 0x33, 0x34, 0x35, 0x36, 0x37, 0x38, 0x39];
  }
}
