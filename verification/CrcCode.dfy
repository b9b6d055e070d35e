/**
 * The source's crc16, on bytes and a 16-bit word, and what it promises about byte buffers.
 */
module CrcCode {
  import opened Crc16

  function RegisterOf(c: bv16): Register {
    [c & 0x8000 != 0, c & 0x4000 != 0, c & 0x2000 != 0, c & 0x1000 != 0,
     c & 0x0800 != 0, c & 0x0400 != 0, c & 0x0200 != 0, c & 0x0100 != 0,
     c & 0x0080 != 0, c & 0x0040 != 0, c & 0x0020 != 0, c & 0x0010 != 0,
     c & 0x0008 != 0, c & 0x0004 != 0, c & 0x0002 != 0, c & 0x0001 != 0]
  }

  function ByteBits(b: bv8): Bits {
    [b & 0x80 != 0, b & 0x40 != 0, b & 0x20 != 0, b & 0x10 != 0,
     b & 0x08 != 0, b & 0x04 != 0, b & 0x02 != 0, b & 0x01 != 0]
  }

  function BitsOf(buf: seq<bv8>): (bits: Bits)
    ensures |bits| == 8 * |buf|
  {
    if buf == [] then [] else BitsOf(buf[..|buf| - 1]) + ByteBits(buf[|buf| - 1])
  }

  // The body of the source's inner loop.
  function WordStep(crc: bv16, bit: bool): bv16 {
    var divide := crc & 0x8000;
    var shifted := (crc << 1) | (if bit then 1 else 0);
    if divide != 0 then shifted ^ 0x1021 else shifted
  }

  lemma ShiftIsShift(crc: bv16, bit: bool)
    ensures RegisterOf((crc << 1) | (if bit then 1 else 0)) == RegisterOf(crc)[1..] + [bit]
  {
  }

  lemma DivideFlips(w: bv16)
    ensures RegisterOf(w ^ 0x1021)
         == [w & 0x8000 != 0, w & 0x4000 != 0, w & 0x2000 != 0, w & 0x1000 == 0,
             w & 0x0800 != 0, w & 0x0400 != 0, w & 0x0200 != 0, w & 0x0100 != 0,
             w & 0x0080 != 0, w & 0x0040 != 0, w & 0x0020 == 0, w & 0x0010 != 0,
             w & 0x0008 != 0, w & 0x0004 != 0, w & 0x0002 != 0, w & 0x0001 == 0]
  {
  }

  lemma XorPoly(r: Register)
    ensures Xor(r, Poly()) == [r[0], r[1], r[2], !r[3], r[4], r[5], r[6], r[7],
                               r[8], r[9], !r[10], r[11], r[12], r[13], r[14], !r[15]]
  {
  }

  lemma DivideIsXor(word: bv16)
    ensures RegisterOf(word ^ 0x1021) == Xor(RegisterOf(word), Poly())
  {
    DivideFlips(word);
    XorPoly(RegisterOf(word));
  }

  lemma WordStepIsStep(crc: bv16, bit: bool)
    ensures RegisterOf(WordStep(crc, bit)) == Step(RegisterOf(crc), bit)
  {
    ShiftIsShift(crc, bit);
    DivideIsXor((crc << 1) | (if bit then 1 else 0));
  }

  lemma RegisterInjective(c: bv16, d: bv16)
    requires RegisterOf(c) == RegisterOf(d)
    ensures c == d
  {
  }

  lemma RegisterOfZero()
    ensures RegisterOf(0) == Zeros(16)
  {
  }

  lemma BitAt(x: bv8, b: nat)
    requires b < 8
    ensures (x & (0x80 >> b) != 0) == ByteBits(x)[b]
  {
  }

  // What the loops have read when they stand at bit b of byte i.
  ghost function ReadBits(buf: seq<bv8>, i: nat, b: nat): Bits
    requires b <= 8
  {
    if i < |buf| then BitsOf(buf[..i]) + ByteBits(buf[i])[..b]
    else BitsOf(buf) + Zeros(8 * (i - |buf|) + b)
  }

  lemma ReadBit(buf: seq<bv8>, i: nat, b: nat)
    requires b < 8
    ensures ReadBits(buf, i, b + 1) == ReadBits(buf, i, b) + [i < |buf| && ByteBits(buf[i])[b]]
  {
    if i < |buf| {
      var bits := ByteBits(buf[i]);
      assert bits[..b + 1] == bits[..b] + [bits[b]];
    } else {
      var n := 8 * (i - |buf|) + b;
      assert Zeros(n + 1) == Zeros(n) + [false];
    }
  }

  lemma ReadByte(buf: seq<bv8>, i: nat)
    ensures ReadBits(buf, i, 8) == ReadBits(buf, i + 1, 0)
  {
    if i < |buf| {
      assert buf[..i + 1][..i] == buf[..i];
      assert buf[..|buf|] == buf;
    }
  }

  function Message(buf: seq<bv8>, pad: bool): Bits {
    BitsOf(buf) + Zeros(if pad then 16 else 0)
  }

  lemma FeedBit(buf: seq<bv8>, i: nat, b: nat, bit: bool)
    requires b < 8 && bit == (i < |buf| && ByteBits(buf[i])[b])
    ensures Feed(Zeros(16), ReadBits(buf, i, b + 1)) == Step(Feed(Zeros(16), ReadBits(buf, i, b)), bit)
  {
    ReadBit(buf, i, b);
    FeedAppend(Zeros(16), ReadBits(buf, i, b), [bit]);
    assert [bit][..0] == [];
  }

  // One bit: the message's, or one of the zeros behind it.
  method CrcBit(buf: seq<bv8>, i: nat, b: nat, crc: bv16) returns (next: bv16)
    requires b < 8 && RegisterOf(crc) == Feed(Zeros(16), ReadBits(buf, i, b))
    ensures RegisterOf(next) == Feed(Zeros(16), ReadBits(buf, i, b + 1))
  {
    var bit := false;
    if i < |buf| {
      bit := buf[i] & (0x80 >> b) != 0;
      BitAt(buf[i], b);
    }
    FeedBit(buf, i, b, bit);
    WordStepIsStep(crc, bit);
    next := WordStep(crc, bit);
  }

  method Crc(buf: seq<bv8>, pad: bool) returns (crc: bv16)
    ensures RegisterOf(crc) == Feed(Zeros(16), Message(buf, pad))
  {
    crc := 0;
    RegisterOfZero();
    var padding := if pad then 2 else 0;
    for i := 0 to |buf| + padding
      invariant RegisterOf(crc) == Feed(Zeros(16), ReadBits(buf, i, 0))
    {
      for b := 0 to 8
        invariant RegisterOf(crc) == Feed(Zeros(16), ReadBits(buf, i, b))
      {
        crc := CrcBit(buf, i, b, crc);
      }
      ReadByte(buf, i);
    }
  }

  // ---------- What it promises about bytes ----------

  // The value of the source's crc16(buf, len, true).
  ghost predicate IsCrc(buf: seq<bv8>, crc: bv16) {
    RegisterOf(crc) == Padded(BitsOf(buf))
  }

  function WordFeed(crc: bv16, bits: Bits): bv16 {
    if bits == [] then crc else WordStep(WordFeed(crc, bits[..|bits| - 1]), bits[|bits| - 1])
  }

  lemma {:induction false} WordFeedIsFeed(bits: Bits)
    ensures RegisterOf(WordFeed(0, bits)) == Feed(Zeros(16), bits)
  {
    RegisterOfZero();
    if bits != [] {
      var n := |bits| - 1;
      WordFeedIsFeed(bits[..n]);
      WordStepIsStep(WordFeed(0, bits[..n]), bits[n]);
    }
  }

  function CrcOf(buf: seq<bv8>): bv16 {
    WordFeed(0, Message(buf, true))
  }

  lemma CrcOfIsTheCrc(buf: seq<bv8>, crc: bv16)
    ensures IsCrc(buf, crc) <==> crc == CrcOf(buf)
  {
    WordFeedIsFeed(Message(buf, true));
    if RegisterOf(crc) == RegisterOf(CrcOf(buf)) {
      RegisterInjective(crc, CrcOf(buf));
    }
  }

  lemma BytesDetectBurst(buf: seq<bv8>, other: seq<bv8>, p: nat, crc: bv16, otherCrc: bv16)
    requires DifferInBurst(BitsOf(buf), BitsOf(other), p)
    requires IsCrc(buf, crc) && IsCrc(other, otherCrc)
    ensures crc != otherCrc
  {
    BurstDetected(BitsOf(buf), BitsOf(other), p, 16);
  }

  lemma BytesDetectOdd(buf: seq<bv8>, other: seq<bv8>, crc: bv16, otherCrc: bv16)
    requires |buf| == |other| && Odd(Xor(BitsOf(buf), BitsOf(other)))
    requires IsCrc(buf, crc) && IsCrc(other, otherCrc)
    ensures crc != otherCrc
  {
    OddErrorDetected(BitsOf(buf), BitsOf(other));
  }

  function HighByte(c: bv16): bv8 {
    ((c & 0xFF00) >> 8) as bv8
  }

  function LowByte(c: bv16): bv8 {
    (c & 0x00FF) as bv8
  }

  lemma BytesOfWord(c: bv16)
    ensures BitsOf([HighByte(c), LowByte(c)]) == RegisterOf(c)
  {
    var h, l := HighByte(c), LowByte(c);
    assert [h, l][..1] == [h] && [h][..0] == [];
    HighBits(c);
    LowBits(c);
  }

  lemma HighBits(c: bv16)
    ensures ByteBits(HighByte(c)) == RegisterOf(c)[..8]
  {
  }

  lemma LowBits(c: bv16)
    ensures ByteBits(LowByte(c)) == RegisterOf(c)[8..]
  {
  }

  lemma {:induction false} BitsOfAppend(s: seq<bv8>, t: seq<bv8>)
    ensures BitsOf(s + t) == BitsOf(s) + BitsOf(t)
  {
    if t == [] {
      assert s + t == s;
    } else {
      var n := |t| - 1;
      assert (s + t)[..|s| + n] == s + t[..n];
      BitsOfAppend(s, t[..n]);
    }
  }

  // A buffer followed by its CRC, high byte first, has CRC zero.
  lemma AppendedCrcChecks(buf: seq<bv8>, crc: bv16)
    requires IsCrc(buf, crc)
    ensures IsCrc(buf + [HighByte(crc), LowByte(crc)], 0)
  {
    BytesOfWord(crc);
    BitsOfAppend(buf, [HighByte(crc), LowByte(crc)]);
    AppendedCrcLeavesZero(BitsOf(buf));
    RegisterOfZero();
  }

  lemma TailDetected(s: Bits, t: Bits, u: Bits)
    requires |t| == |u| == 16 && t != u
    ensures Padded(s + t) != Padded(s + u)
  {
    var i :| 0 <= i < 16 && t[i] != u[i];
    assert (s + t)[|s| + i] == t[i] && (s + u)[|s| + i] == u[i];
    BurstDetected(s + t, s + u, |s|, 16);
  }

  lemma ByteBitsInjective(b: bv8, c: bv8)
    requires ByteBits(b) == ByteBits(c)
    ensures b == c
  {
    assert forall i :: 0 <= i < 8 ==> ByteBits(b)[i] == ByteBits(c)[i];
  }

  lemma BitsOfOne(b: bv8)
    ensures BitsOf([b]) == ByteBits(b)
  {
    assert [b][..0] == [];
    assert BitsOf([b]) == [] + ByteBits(b);
  }

  lemma BitsOfTwo(t: seq<bv8>)
    requires |t| == 2
    ensures BitsOf(t) == ByteBits(t[0]) + ByteBits(t[1])
  {
    assert t == [t[0]] + [t[1]];
    BitsOfAppend([t[0]], [t[1]]);
    BitsOfOne(t[0]);
    BitsOfOne(t[1]);
  }

  lemma HalvesEqual(p: Bits, q: Bits, p': Bits, q': Bits)
    requires |p| == |p'| && p + q == p' + q'
    ensures p == p' && q == q'
  {
    assert (p + q)[..|p|] == p && (p + q)[|p|..] == q;
    assert (p' + q')[..|p|] == p' && (p' + q')[|p|..] == q';
  }

  lemma TwoBytesInjective(t: seq<bv8>, u: seq<bv8>)
    requires |t| == |u| == 2 && BitsOf(t) == BitsOf(u)
    ensures t == u
  {
    BitsOfTwo(t);
    BitsOfTwo(u);
    HalvesEqual(ByteBits(t[0]), ByteBits(t[1]), ByteBits(u[0]), ByteBits(u[1]));
    ByteBitsInjective(t[0], u[0]);
    ByteBitsInjective(t[1], u[1]);
  }

  // The receiver's check passes for no other two bytes.
  lemma CheckPassesOnlyForCrc(buf: seq<bv8>, t: seq<bv8>)
    requires |t| == 2
    ensures CrcOf(buf + t) == 0 <==> t == [HighByte(CrcOf(buf)), LowByte(CrcOf(buf))]
  {
    var u := [HighByte(CrcOf(buf)), LowByte(CrcOf(buf))];
    CrcOfIsTheCrc(buf, CrcOf(buf));
    AppendedCrcChecks(buf, CrcOf(buf));
    CrcOfIsTheCrc(buf + u, 0);
    CrcOfIsTheCrc(buf + t, 0);
    if t != u && IsCrc(buf + t, 0) {
      if BitsOf(t) == BitsOf(u) {
        TwoBytesInjective(t, u);
      } else {
        BitsOfAppend(buf, t);
        BitsOfAppend(buf, u);
        TailDetected(BitsOf(buf), BitsOf(t), BitsOf(u));
      }
    }
  }
}
