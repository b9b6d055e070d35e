/**
 * What the characters of base64 stand for: the alphabet of RFC 4648, section 4, table 1, written out, and
 * which bit of the bytes each bit of a character is.
 */
module Base64Bits {
  import opened Base64
  import opened CrcCode

  // The characters A to P, Q to f, g to v, and w to z with the figures, plus and slash.
  const ROW_1: seq<bv8> := [0x41, 0x42, 0x43, 0x44, 0x45, 0x46, 0x47, 0x48, 0x49, 0x4a, 0x4b, 0x4c, 0x4d, 0x4e, 0x4f, 0x50]
  const ROW_2: seq<bv8> := [0x51, 0x52, 0x53, 0x54, 0x55, 0x56, 0x57, 0x58, 0x59, 0x5a, 0x61, 0x62, 0x63, 0x64, 0x65, 0x66]
  const ROW_3: seq<bv8> := [0x67, 0x68, 0x69, 0x6a, 0x6b, 0x6c, 0x6d, 0x6e, 0x6f, 0x70, 0x71, 0x72, 0x73, 0x74, 0x75, 0x76]
  const ROW_4: seq<bv8> := [0x77, 0x78, 0x79, 0x7a, 0x30, 0x31, 0x32, 0x33, 0x34, 0x35, 0x36, 0x37, 0x38, 0x39, 0x2b, 0x2f]
  const ALPHABET: seq<bv8> := ROW_1 + ROW_2 + ROW_3 + ROW_4

  // What value v is written as is character v of the alphabet.
  lemma WrittenAs()
    ensures ROW_1 == [EncMap(0), EncMap(1), EncMap(2), EncMap(3), EncMap(4), EncMap(5), EncMap(6), EncMap(7),
                      EncMap(8), EncMap(9), EncMap(10), EncMap(11), EncMap(12), EncMap(13), EncMap(14), EncMap(15)]
    ensures ROW_2 == [EncMap(16), EncMap(17), EncMap(18), EncMap(19), EncMap(20), EncMap(21), EncMap(22), EncMap(23),
                      EncMap(24), EncMap(25), EncMap(26), EncMap(27), EncMap(28), EncMap(29), EncMap(30), EncMap(31)]
    ensures ROW_3 == [EncMap(32), EncMap(33), EncMap(34), EncMap(35), EncMap(36), EncMap(37), EncMap(38), EncMap(39),
                      EncMap(40), EncMap(41), EncMap(42), EncMap(43), EncMap(44), EncMap(45), EncMap(46), EncMap(47)]
    ensures ROW_4 == [EncMap(48), EncMap(49), EncMap(50), EncMap(51), EncMap(52), EncMap(53), EncMap(54), EncMap(55),
                      EncMap(56), EncMap(57), EncMap(58), EncMap(59), EncMap(60), EncMap(61), EncMap(62), EncMap(63)]
  {
  }

  lemma Member<X>(x: X, b0: X, b1: X, b2: X, b3: X, b4: X, b5: X, b6: X, b7: X)
    ensures x in [b0, b1, b2, b3, b4, b5, b6, b7] <==>
            x == b0 || x == b1 || x == b2 || x == b3 || x == b4 || x == b5 || x == b6 || x == b7
  {
    var s := [b0, b1, b2, b3, b4, b5, b6, b7];
    assert s[0] == b0 && s[1] == b1 && s[2] == b2 && s[3] == b3 && s[4] == b4 && s[5] == b5 && s[6] == b6 && s[7] == b7;
  }

  lemma InRow1(c: bv8)
    ensures c in ROW_1 <==> IsDigit(c) && DecMap(c) < 16
  {
    var first, second: seq<bv8> := [0x41, 0x42, 0x43, 0x44, 0x45, 0x46, 0x47, 0x48], [0x49, 0x4a, 0x4b, 0x4c, 0x4d, 0x4e, 0x4f, 0x50];
    assert ROW_1 == first + second;
    Member(c, 0x41, 0x42, 0x43, 0x44, 0x45, 0x46, 0x47, 0x48);
    Member(c, 0x49, 0x4a, 0x4b, 0x4c, 0x4d, 0x4e, 0x4f, 0x50);
  }

  lemma InRow2(c: bv8)
    ensures c in ROW_2 <==> IsDigit(c) && 16 <= DecMap(c) < 32
  {
    var first, second: seq<bv8> := [0x51, 0x52, 0x53, 0x54, 0x55, 0x56, 0x57, 0x58], [0x59, 0x5a, 0x61, 0x62, 0x63, 0x64, 0x65, 0x66];
    assert ROW_2 == first + second;
    Member(c, 0x51, 0x52, 0x53, 0x54, 0x55, 0x56, 0x57, 0x58);
    Member(c, 0x59, 0x5a, 0x61, 0x62, 0x63, 0x64, 0x65, 0x66);
  }

  lemma InRow3(c: bv8)
    ensures c in ROW_3 <==> IsDigit(c) && 32 <= DecMap(c) < 48
  {
    var first, second: seq<bv8> := [0x67, 0x68, 0x69, 0x6a, 0x6b, 0x6c, 0x6d, 0x6e], [0x6f, 0x70, 0x71, 0x72, 0x73, 0x74, 0x75, 0x76];
    assert ROW_3 == first + second;
    Member(c, 0x67, 0x68, 0x69, 0x6a, 0x6b, 0x6c, 0x6d, 0x6e);
    Member(c, 0x6f, 0x70, 0x71, 0x72, 0x73, 0x74, 0x75, 0x76);
  }

  lemma InRow4(c: bv8)
    ensures c in ROW_4 <==> IsDigit(c) && 48 <= DecMap(c) < 64
  {
    var first, second: seq<bv8> := [0x77, 0x78, 0x79, 0x7a, 0x30, 0x31, 0x32, 0x33], [0x34, 0x35, 0x36, 0x37, 0x38, 0x39, 0x2b, 0x2f];
    assert ROW_4 == first + second;
    Member(c, 0x77, 0x78, 0x79, 0x7a, 0x30, 0x31, 0x32, 0x33);
    Member(c, 0x34, 0x35, 0x36, 0x37, 0x38, 0x39, 0x2b, 0x2f);
  }

  // The characters taken are the 64 of the alphabet and no others.
  lemma DigitsAreAlphabet(c: bv8)
    ensures IsDigit(c) <==> c in ALPHABET
  {
    InRow1(c);
    InRow2(c);
    InRow3(c);
    InRow4(c);
  }

  // ---------- Bits, the most significant first ----------

  function DigitBits(v: bv8): (t: seq<bool>)
    ensures |t| == 6
  {
    [v & 0x20 != 0, v & 0x10 != 0, v & 0x08 != 0, v & 0x04 != 0, v & 0x02 != 0, v & 0x01 != 0]
  }

  // Lists of bits, element by element.
  lemma Eight<X>(b0: X, b1: X, b2: X, b3: X, b4: X, b5: X, b6: X, b7: X)
    ensures var r := [b0, b1, b2, b3, b4, b5, b6, b7];
            r[0] == b0 && r[1] == b1 && r[2] == b2 && r[3] == b3 && r[4] == b4 && r[5] == b5 && r[6] == b6 && r[7] == b7
  {
  }

  lemma Six<X>(b0: X, b1: X, b2: X, b3: X, b4: X, b5: X)
    ensures var r := [b0, b1, b2, b3, b4, b5]; r[0] == b0 && r[1] == b1 && r[2] == b2 && r[3] == b3 && r[4] == b4 && r[5] == b5
  {
  }

  lemma ByteTests(b: bv8) returns (r: seq<bool>)
    ensures |r| == 8 && r == ByteBits(b)
    ensures r[0] == (b & 0x80 != 0) && r[1] == (b & 0x40 != 0) && r[2] == (b & 0x20 != 0) && r[3] == (b & 0x10 != 0)
    ensures r[4] == (b & 0x08 != 0) && r[5] == (b & 0x04 != 0) && r[6] == (b & 0x02 != 0) && r[7] == (b & 0x01 != 0)
  {
    Eight(b & 0x80 != 0, b & 0x40 != 0, b & 0x20 != 0, b & 0x10 != 0, b & 0x08 != 0, b & 0x04 != 0, b & 0x02 != 0, b & 0x01 != 0);
    r := ByteBits(b);
  }

  lemma DigitTests(v: bv8) returns (r: seq<bool>)
    ensures |r| == 6 && r == DigitBits(v)
    ensures r[0] == (v & 0x20 != 0) && r[1] == (v & 0x10 != 0) && r[2] == (v & 0x08 != 0)
    ensures r[3] == (v & 0x04 != 0) && r[4] == (v & 0x02 != 0) && r[5] == (v & 0x01 != 0)
  {
    Six(v & 0x20 != 0, v & 0x10 != 0, v & 0x08 != 0, v & 0x04 != 0, v & 0x02 != 0, v & 0x01 != 0);
    r := DigitBits(v);
  }

  // The first, second and third eight of the 24 bits of four characters.
  lemma FirstTests(a: bv8, b: bv8)
    requires a < 64 && b < 64
    ensures var x := (a << 2) | (b >> 4);
            && (x & 0x80 != 0) == (a & 0x20 != 0) && (x & 0x40 != 0) == (a & 0x10 != 0)
            && (x & 0x20 != 0) == (a & 0x08 != 0) && (x & 0x10 != 0) == (a & 0x04 != 0)
            && (x & 0x08 != 0) == (a & 0x02 != 0) && (x & 0x04 != 0) == (a & 0x01 != 0)
            && (x & 0x02 != 0) == (b & 0x20 != 0) && (x & 0x01 != 0) == (b & 0x10 != 0)
  {
  }

  lemma FirstParts(a: bv8, b: bv8) returns (r: seq<bool>, p: seq<bool>, q: seq<bool>)
    requires a < 64 && b < 64
    ensures r == ByteBits((a << 2) | (b >> 4)) && p == DigitBits(a) && q == DigitBits(b)
    ensures r[0] == p[0] && r[1] == p[1] && r[2] == p[2] && r[3] == p[3]
    ensures r[4] == p[4] && r[5] == p[5] && r[6] == q[0] && r[7] == q[1]
  {
    FirstTests(a, b);
    r := ByteTests((a << 2) | (b >> 4));
    p := DigitTests(a);
    q := DigitTests(b);
  }

  lemma FirstJoin<X>(r: seq<X>, p: seq<X>, q: seq<X>)
    requires |r| == 8 && |p| == |q| == 6
    requires r[0] == p[0] && r[1] == p[1] && r[2] == p[2] && r[3] == p[3]
    requires r[4] == p[4] && r[5] == p[5] && r[6] == q[0] && r[7] == q[1]
    ensures r == p + q[..2]
  {
  }

  lemma FirstByte(a: bv8, b: bv8)
    requires a < 64 && b < 64
    ensures ByteBits((a << 2) | (b >> 4)) == DigitBits(a) + DigitBits(b)[..2]
  {
    var r, p, q := FirstParts(a, b);
    FirstJoin(r, p, q);
  }

  lemma SecondTests(b: bv8, c: bv8)
    requires b < 64 && c < 64
    ensures var x := (b << 4) | (c >> 2);
            && (x & 0x80 != 0) == (b & 0x08 != 0) && (x & 0x40 != 0) == (b & 0x04 != 0)
            && (x & 0x20 != 0) == (b & 0x02 != 0) && (x & 0x10 != 0) == (b & 0x01 != 0)
            && (x & 0x08 != 0) == (c & 0x20 != 0) && (x & 0x04 != 0) == (c & 0x10 != 0)
            && (x & 0x02 != 0) == (c & 0x08 != 0) && (x & 0x01 != 0) == (c & 0x04 != 0)
  {
  }

  lemma SecondParts(b: bv8, c: bv8) returns (r: seq<bool>, p: seq<bool>, q: seq<bool>)
    requires b < 64 && c < 64
    ensures r == ByteBits((b << 4) | (c >> 2)) && p == DigitBits(b) && q == DigitBits(c)
    ensures r[0] == p[2] && r[1] == p[3] && r[2] == p[4] && r[3] == p[5]
    ensures r[4] == q[0] && r[5] == q[1] && r[6] == q[2] && r[7] == q[3]
  {
    SecondTests(b, c);
    r := ByteTests((b << 4) | (c >> 2));
    p := DigitTests(b);
    q := DigitTests(c);
  }

  lemma SecondJoin<X>(r: seq<X>, p: seq<X>, q: seq<X>)
    requires |r| == 8 && |p| == |q| == 6
    requires r[0] == p[2] && r[1] == p[3] && r[2] == p[4] && r[3] == p[5]
    requires r[4] == q[0] && r[5] == q[1] && r[6] == q[2] && r[7] == q[3]
    ensures r == p[2..] + q[..4]
  {
  }

  lemma SecondByte(b: bv8, c: bv8)
    requires b < 64 && c < 64
    ensures ByteBits((b << 4) | (c >> 2)) == DigitBits(b)[2..] + DigitBits(c)[..4]
  {
    var r, p, q := SecondParts(b, c);
    SecondJoin(r, p, q);
  }

  lemma ThirdTests(c: bv8, d: bv8)
    requires c < 64 && d < 64
    ensures var x := (c << 6) | d;
            && (x & 0x80 != 0) == (c & 0x02 != 0) && (x & 0x40 != 0) == (c & 0x01 != 0)
            && (x & 0x20 != 0) == (d & 0x20 != 0) && (x & 0x10 != 0) == (d & 0x10 != 0)
            && (x & 0x08 != 0) == (d & 0x08 != 0) && (x & 0x04 != 0) == (d & 0x04 != 0)
            && (x & 0x02 != 0) == (d & 0x02 != 0) && (x & 0x01 != 0) == (d & 0x01 != 0)
  {
  }

  lemma ThirdParts(c: bv8, d: bv8) returns (r: seq<bool>, p: seq<bool>, q: seq<bool>)
    requires c < 64 && d < 64
    ensures r == ByteBits((c << 6) | d) && p == DigitBits(c) && q == DigitBits(d)
    ensures r[0] == p[4] && r[1] == p[5] && r[2] == q[0] && r[3] == q[1]
    ensures r[4] == q[2] && r[5] == q[3] && r[6] == q[4] && r[7] == q[5]
  {
    ThirdTests(c, d);
    r := ByteTests((c << 6) | d);
    p := DigitTests(c);
    q := DigitTests(d);
  }

  lemma ThirdJoin<X>(r: seq<X>, p: seq<X>, q: seq<X>)
    requires |r| == 8 && |p| == |q| == 6
    requires r[0] == p[4] && r[1] == p[5] && r[2] == q[0] && r[3] == q[1]
    requires r[4] == q[2] && r[5] == q[3] && r[6] == q[4] && r[7] == q[5]
    ensures r == p[4..] + q
  {
  }

  lemma ThirdByte(c: bv8, d: bv8)
    requires c < 64 && d < 64
    ensures ByteBits((c << 6) | d) == DigitBits(c)[4..] + DigitBits(d)
  {
    var r, p, q := ThirdParts(c, d);
    ThirdJoin(r, p, q);
  }

  // Three times eight as four times six.
  lemma Regrouped<X>(p: seq<X>, q: seq<X>, r: seq<X>, a: seq<X>, b: seq<X>, c: seq<X>, d: seq<X>, k: nat)
    requires |a| == |b| == |c| == |d| == 6 && p == a + b[..2] && q == b[2..] + c[..4] && r == c[4..] + d && k < 24
    ensures |p| == |q| == |r| == 8 && [p, q, r][k / 8][k % 8] == [a, b, c, d][k / 6][k % 6]
  {
    var all := a + b + c + d;
    assert p == all[..8] && q == all[8..16] && r == all[16..24];
    Eights(all, k);
    Sixes(all, k);
    assert a == all[..6] && b == all[6..12] && c == all[12..18] && d == all[18..24];
  }

  lemma Eights<X>(all: seq<X>, k: nat)
    requires |all| == 24 && k < 24
    ensures [all[..8], all[8..16], all[16..24]][k / 8][k % 8] == all[k]
  {
    if k < 8 {
    } else if k < 16 {
      assert k / 8 == 1 && k % 8 == k - 8;
    } else {
      assert k / 8 == 2 && k % 8 == k - 16;
    }
  }

  lemma Sixes<X>(all: seq<X>, k: nat)
    requires |all| == 24 && k < 24
    ensures [all[..6], all[6..12], all[12..18], all[18..24]][k / 6][k % 6] == all[k]
  {
    if k < 6 {
    } else if k < 12 {
      assert k / 6 == 1 && k % 6 == k - 6;
    } else if k < 18 {
      assert k / 6 == 2 && k % 6 == k - 12;
    } else {
      assert k / 6 == 3 && k % 6 == k - 18;
    }
  }

  // The bits of three bytes and those of four characters.
  function ByteLists(x: seq<bv8>): (t: seq<seq<bool>>)
    requires |x| == 3
  {
    [ByteBits(x[0]), ByteBits(x[1]), ByteBits(x[2])]
  }

  function DigitLists(v: seq<bv8>): (t: seq<seq<bool>>)
    requires |v| == 4
  {
    [DigitBits(v[0]), DigitBits(v[1]), DigitBits(v[2]), DigitBits(v[3])]
  }

  lemma ListOfByte(x: seq<bv8>, i: nat)
    requires |x| == 3 && i < 3
    ensures ByteLists(x)[i] == ByteBits(x[i])
  {
  }

  lemma ListOfDigit(v: seq<bv8>, i: nat)
    requires |v| == 4 && i < 4
    ensures DigitLists(v)[i] == DigitBits(v[i])
  {
  }

  lemma GroupBits(v: seq<bv8>, k: nat)
    requires |v| == 4 && v[0] < 64 && v[1] < 64 && v[2] < 64 && v[3] < 64 && k < 24
    ensures ByteBits(Bytes(v[0], v[1], v[2], v[3])[k / 8])[k % 8] == DigitBits(v[k / 6])[k % 6]
  {
    var x := Bytes(v[0], v[1], v[2], v[3]);
    FirstByte(v[0], v[1]);
    SecondByte(v[1], v[2]);
    ThirdByte(v[2], v[3]);
    Regrouped(ByteBits(x[0]), ByteBits(x[1]), ByteBits(x[2]), DigitBits(v[0]), DigitBits(v[1]), DigitBits(v[2]), DigitBits(v[3]), k);
    ListOfByte(x, k / 8);
    ListOfDigit(v, k / 6);
  }

  ghost predicate SameBit(t: seq<bv8>, s: seq<bv8>, k: nat) {
    k / 8 < |s| && k / 6 < |t| && IsDigit(t[k / 6]) && ByteBits(s[k / 8])[k % 8] == DigitBits(DecMap(t[k / 6]))[k % 6]
  }

  // The pads stand behind everything else.
  lemma DigitsFirst(t: seq<bv8>, i: nat)
    requires WellPadded(t) && i < |t| - Pads(t)
    ensures IsDigit(t[i])
  {
    if t[i] == PAD {
      PadsFrom(t, i);
    }
  }

  lemma PadsFrom(t: seq<bv8>, i: nat)
    requires WellPadded(t) && i < |t| && t[i] == PAD
    ensures Pads(t) >= |t| - i
  {
    AllPads(t[i..]);
    PadsAppend(t[..i], t[i..]);
    assert t == t[..i] + t[i..];
  }

  lemma SixBitsOf(g: seq<bv8>) returns (v: seq<bv8>)
    requires |g| == 4
    ensures |v| == 4 && (forall i :: 0 <= i < 4 ==> v[i] == SixBits(g[i]) && v[i] < 64)
  {
    v := [SixBits(g[0]), SixBits(g[1]), SixBits(g[2]), SixBits(g[3])];
  }

  lemma GroupBytesBits(g: seq<bv8>, k: nat)
    requires |g| == 4 && WellPadded(g) && k < 8 * |GroupBytes(g)|
    ensures SameBit(g, GroupBytes(g), k)
  {
    var v := SixBitsOf(g);
    DigitsFirst(g, k / 6);
    DigitSixBits(g[k / 6]);
    GroupBits(v, k);
    assert GroupBytes(g) == Bytes(v[0], v[1], v[2], v[3])[..|GroupBytes(g)|];
  }

  lemma DigitSixBits(c: bv8)
    requires IsDigit(c)
    ensures SixBits(c) == DecMap(c)
  {
  }

  lemma ThirdOfBits(k: nat)
    requires k >= 24
    ensures (k - 24) / 8 == k / 8 - 3 && (k - 24) % 8 == k % 8 && (k - 24) / 6 == k / 6 - 4 && (k - 24) % 6 == k % 6
  {
  }

  // A text that decodes to more than its first group has no pad in that group.
  lemma WholeFirstGroup(t: seq<bv8>)
    requires WellPadded(t) && |t| >= 8
    ensures |GroupBytes(t[..4])| == 3
  {
    DecodeFirstGroup(t);
    PadsOnlyAtEnd(t);
  }

  // Whatever well padded text is decoded, bit k of the bytes is bit k % 6 of the value of character k / 6.
  lemma {:induction false} DecodedBits(t: seq<bv8>, k: nat)
    requires WellPadded(t) && k < 8 * |Decode(t)|
    ensures SameBit(t, Decode(t), k)
    decreases |t|
  {
    var g := t[..4];
    WellPaddedParts(t, 4);
    if k < 8 * |GroupBytes(g)| {
      GroupBytesBits(g, k);
      BitOfFirst(g, t[4..], GroupBytes(g), Decode(t[4..]), k);
    } else {
      WholeFirstGroup(t);
      DecodedBits(t[4..], k - 24);
      BitOfRest(g, t[4..], GroupBytes(g), Decode(t[4..]), k);
    }
    assert t == g + t[4..];
  }

  lemma BitOfFirst(g: seq<bv8>, rest: seq<bv8>, x: seq<bv8>, y: seq<bv8>, k: nat)
    requires SameBit(g, x, k)
    ensures SameBit(g + rest, x + y, k)
  {
  }

  lemma BitOfRest(g: seq<bv8>, rest: seq<bv8>, x: seq<bv8>, y: seq<bv8>, k: nat)
    requires |g| == 4 && |x| == 3 && k >= 24 && SameBit(rest, y, k - 24)
    ensures SameBit(g + rest, x + y, k)
  {
    ThirdOfBits(k);
  }

  ghost predicate SameBits(t: seq<bv8>, s: seq<bv8>) {
    forall k: nat :: k < 8 * |s| ==> SameBit(t, s, k)
  }

  // Bit k of the bytes that are encoded is bit k % 6 of the place in the alphabet of character k / 6.
  lemma EncodedBits(s: seq<bv8>)
    ensures SameBits(Encode(s), s)
  {
    RoundTrip(s);
    forall k: nat | k < 8 * |s| ensures SameBit(Encode(s), s, k) {
      DecodedBits(Encode(s), k);
    }
  }

  ghost predicate ZerosFrom(v: bv8, k: int) {
    forall j :: 0 <= j < 6 && k <= j ==> !DigitBits(v)[j]
  }

  // Behind the last byte the last character has zeros, and the characters after it are pads.
  ghost predicate ZerosAndPads(s: seq<bv8>, t: seq<bv8>)
    requires s != []
  {
    var n := (8 * |s| + 5) / 6;
    && n <= |t| == 4 * ((|s| + 2) / 3) && IsDigit(t[n - 1])
    && ZerosFrom(DecMap(t[n - 1]), 8 * |s| - 6 * (n - 1))
    && (forall i: nat :: n <= i < |t| ==> t[i] == PAD)
  }

  lemma OneByteEnd(a: bv8)
    ensures IsDigit(EncMap(Digit2(a, 0))) && ZerosFrom(DecMap(EncMap(Digit2(a, 0))), 2)
  {
    DecodesEncoded(Digit2(a, 0));
  }

  lemma TwoByteEnd(b: bv8)
    ensures IsDigit(EncMap(Digit3(b, 0))) && ZerosFrom(DecMap(EncMap(Digit3(b, 0))), 4)
  {
    DecodesEncoded(Digit3(b, 0));
  }

  lemma EndOfGroup(s: seq<bv8>)
    requires 1 <= |s| <= 3
    ensures ZerosAndPads(s, Encode(s))
  {
    if |s| == 1 {
      OneByteEnd(s[0]);
    } else if |s| == 2 {
      TwoByteEnd(s[1]);
    } else {
      DecodesEncoded(Digit4(s[2]));
      assert s[3..] == [];
    }
  }

  lemma {:induction false} EncodedEnd(s: seq<bv8>)
    requires s != []
    ensures ZerosAndPads(s, Encode(s))
  {
    if |s| > 3 {
      EncodedEnd(s[3..]);
      EndMoves(s, Group(s[0], s[1], s[2]), Encode(s[3..]));
    } else {
      EndOfGroup(s);
    }
  }

  lemma EndMoves(s: seq<bv8>, g: seq<bv8>, t: seq<bv8>)
    requires |s| > 3 && |g| == 4 && ZerosAndPads(s[3..], t)
    ensures ZerosAndPads(s, g + t)
  {
    var n := (8 * |s[3..]| + 5) / 6;
    assert (8 * |s| + 5) / 6 == n + 4 && (g + t)[n + 3] == t[n - 1];
    forall i: nat | n + 4 <= i < |g + t| ensures (g + t)[i] == PAD {
      assert (g + t)[i] == t[i - 4];
    }
  }
}
