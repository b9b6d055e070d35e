/**
 * Base64 (RFC 4648, section 4) as the source encodes and decodes it, on values.
 *
 * The decoder's first pass accepts more than the encoder writes: line ends, spaces before them, and
 * texts that stop inside a group of four. Everything it accepts is described here by the text with
 * the white space taken out.
 */
module Base64 {

  const PAD: bv8 := 0x3d
  const CR: bv8 := 0x0d
  const LF: bv8 := 0x0a
  const SPACE: bv8 := 0x20

  // The source's base64_enc_map.
  function EncMap(v: bv8): bv8
    requires v < 64
  {
    if v < 26 then v + 0x41
    else if v < 52 then v - 26 + 0x61
    else if v < 62 then v - 52 + 0x30
    else if v == 62 then 0x2b
    else 0x2f
  }

  // The source's base64_dec_map: 64 for the pad, 127 for anything outside the alphabet.
  function DecMap(c: bv8): bv8
    requires c < 128
  {
    if c == 0x2b then 62
    else if c == 0x2f then 63
    else if 0x30 <= c <= 0x39 then c - 0x30 + 52
    else if c == PAD then 64
    else if 0x41 <= c <= 0x5a then c - 0x41
    else if 0x61 <= c <= 0x7a then c - 0x61 + 26
    else 127
  }

  predicate IsDigit(c: bv8) {
    c < 128 && DecMap(c) < 64
  }

  lemma DecodesEncoded(v: bv8)
    requires v < 64
    ensures IsDigit(EncMap(v)) && DecMap(EncMap(v)) == v
  {
  }

  // ---------- Encoding ----------

  function Digit1(a: bv8): (v: bv8) ensures v < 64 { (a >> 2) & 0x3f }
  function Digit2(a: bv8, b: bv8): (v: bv8) ensures v < 64 { (((a & 3) << 4) + (b >> 4)) & 0x3f }
  function Digit3(b: bv8, c: bv8): (v: bv8) ensures v < 64 { (((b & 15) << 2) + (c >> 6)) & 0x3f }
  function Digit4(c: bv8): (v: bv8) ensures v < 64 { c & 0x3f }

  function Group(a: bv8, b: bv8, c: bv8): (t: seq<bv8>)
    ensures |t| == 4
  {
    [EncMap(Digit1(a)), EncMap(Digit2(a, b)), EncMap(Digit3(b, c)), EncMap(Digit4(c))]
  }

  function LastGroup(s: seq<bv8>): (t: seq<bv8>)
    requires |s| == 1 || |s| == 2
    ensures |t| == 4
  {
    if |s| == 1 then [EncMap(Digit1(s[0])), EncMap(Digit2(s[0], 0)), PAD, PAD]
    else [EncMap(Digit1(s[0])), EncMap(Digit2(s[0], s[1])), EncMap(Digit3(s[1], 0)), PAD]
  }

  function Encode(s: seq<bv8>): seq<bv8> {
    if s == [] then []
    else if |s| < 3 then LastGroup(s)
    else Group(s[0], s[1], s[2]) + Encode(s[3..])
  }

  lemma {:induction false} EncodedLength(s: seq<bv8>)
    ensures |Encode(s)| == 4 * ((|s| + 2) / 3) && |Encode(s)| % 4 == 0
  {
    if |s| >= 3 {
      EncodedLength(s[3..]);
    }
  }

  // ---------- Decoding symbols ----------

  predicate IsSymbol(c: bv8) {
    IsDigit(c) || c == PAD
  }

  function SixBits(c: bv8): (v: bv8)
    ensures v < 64
  {
    (if c < 128 then DecMap(c) else 127) & 0x3f
  }

  // The three bytes of four symbols.
  function Bytes(a: bv8, b: bv8, c: bv8, d: bv8): (t: seq<bv8>)
    requires a < 64 && b < 64 && c < 64 && d < 64
    ensures |t| == 3
  {
    [(a << 2) | (b >> 4), (b << 4) | (c >> 2), (c << 6) | d]
  }

  lemma GroupUndone(a: bv8, b: bv8, c: bv8)
    ensures Bytes(Digit1(a), Digit2(a, b), Digit3(b, c), Digit4(c)) == [a, b, c]
  {
  }

  function Pads(t: seq<bv8>): (n: nat)
    ensures n <= |t|
  {
    if t == [] then 0 else (if t[|t| - 1] == PAD then 1 else 0) + Pads(t[..|t| - 1])
  }

  predicate Symbols(t: seq<bv8>) {
    forall i :: 0 <= i < |t| ==> IsSymbol(t[i])
  }

  // At most two pads, and nothing but pads after a pad.
  predicate WellPadded(t: seq<bv8>) {
    && Symbols(t)
    && Pads(t) <= 2
    && forall i, j :: 0 <= i < j < |t| && t[i] == PAD ==> t[j] == PAD
  }

  // A group with n pads gives its first 3 - n bytes.
  function GroupBytes(g: seq<bv8>): (b: seq<bv8>)
    requires |g| == 4
    ensures |b| == if Pads(g) <= 3 then 3 - Pads(g) else 0
  {
    Bytes(SixBits(g[0]), SixBits(g[1]), SixBits(g[2]), SixBits(g[3]))[..if Pads(g) <= 3 then 3 - Pads(g) else 0]
  }

  // Whole groups only.
  function Decode(t: seq<bv8>): seq<bv8> {
    if |t| < 4 then [] else GroupBytes(t[..4]) + Decode(t[4..])
  }

  lemma {:induction false} PadsAppend(s: seq<bv8>, t: seq<bv8>)
    ensures Pads(s + t) == Pads(s) + Pads(t)
  {
    if t == [] {
      assert s + t == s;
    } else {
      var n := |t| - 1;
      assert (s + t)[..|s| + n] == s + t[..n];
      PadsAppend(s, t[..n]);
    }
  }

  lemma WellPaddedParts(t: seq<bv8>, n: nat)
    requires WellPadded(t) && n <= |t|
    ensures WellPadded(t[..n]) && WellPadded(t[n..])
  {
    PadsAppend(t[..n], t[n..]);
    assert t == t[..n] + t[n..];
  }

  function WrittenLength(n: nat, p: nat): int {
    if p <= n % 4 then 3 * (n / 4) else 3 * (n / 4) + n % 4 - p
  }

  lemma DecodeFirstGroup(t: seq<bv8>)
    requires WellPadded(t) && |t| >= 4
    ensures WellPadded(t[4..]) && |Decode(t)| == 3 - Pads(t[..4]) + |Decode(t[4..])|
    ensures Pads(t) == Pads(t[..4]) + Pads(t[4..])
  {
    WellPaddedParts(t, 4);
    PadsAppend(t[..4], t[4..]);
    assert t == t[..4] + t[4..];
  }

  // What is written: 3 bytes a group, less the pads that fall inside whole groups.
  lemma {:induction false} DecodedLength(t: seq<bv8>)
    requires WellPadded(t)
    ensures |Decode(t)| == WrittenLength(|t|, Pads(t))
    decreases |t|
  {
    if |t| >= 4 {
      DecodeFirstGroup(t);
      DecodedLength(t[4..]);
      PadsOnlyAtEnd(t);
      assert (|t| - 4) / 4 == |t| / 4 - 1 && (|t| - 4) % 4 == |t| % 4;
    }
  }

  // A pad in the first group leaves room for nothing but pads, of which there is at most one more.
  lemma PadsOnlyAtEnd(t: seq<bv8>)
    requires WellPadded(t) && |t| >= 4
    ensures Pads(t[..4]) > 0 ==> Pads(t[4..]) == |t| - 4
  {
    if Pads(t[..4]) > 0 {
      var i := SomePad(t[..4]);
      assert t[i] == PAD;
      AllPads(t[4..]);
    }
  }

  lemma {:induction false} SomePad(t: seq<bv8>) returns (i: nat)
    requires Pads(t) > 0
    ensures i < |t| && t[i] == PAD
  {
    if t[|t| - 1] == PAD {
      i := |t| - 1;
    } else {
      i := SomePad(t[..|t| - 1]);
    }
  }

  lemma {:induction false} AllPads(t: seq<bv8>)
    requires forall i :: 0 <= i < |t| ==> t[i] == PAD
    ensures Pads(t) == |t|
  {
    if t != [] {
      AllPads(t[..|t| - 1]);
    }
  }

  // ---------- The round trip ----------

  predicate Digits(t: seq<bv8>) {
    forall i :: 0 <= i < |t| ==> IsDigit(t[i])
  }

  lemma {:induction false} NoPads(t: seq<bv8>)
    requires Digits(t)
    ensures Pads(t) == 0
  {
    if t != [] {
      NoPads(t[..|t| - 1]);
    }
  }

  lemma DigitsBefore(s: seq<bv8>, t: seq<bv8>)
    requires Digits(s) && WellPadded(t)
    ensures WellPadded(s + t)
  {
    NoPads(s);
    PadsAppend(s, t);
  }

  lemma GroupIsDigits(a: bv8, b: bv8, c: bv8)
    ensures Digits(Group(a, b, c))
    ensures var g := Group(a, b, c);
            Bytes(SixBits(g[0]), SixBits(g[1]), SixBits(g[2]), SixBits(g[3])) == [a, b, c]
  {
    DigitBack(Digit1(a));
    DigitBack(Digit2(a, b));
    DigitBack(Digit3(b, c));
    DigitBack(Digit4(c));
    GroupUndone(a, b, c);
  }

  lemma DigitBack(v: bv8)
    requires v < 64
    ensures IsDigit(EncMap(v)) && SixBits(EncMap(v)) == v
  {
    DecodesEncoded(v);
  }

  lemma OneByteUndone(a: bv8)
    ensures Bytes(Digit1(a), Digit2(a, 0), 0, 0)[0] == a
  {
  }

  lemma TwoBytesUndone(a: bv8, b: bv8)
    ensures Bytes(Digit1(a), Digit2(a, b), Digit3(b, 0), 0)[..2] == [a, b]
  {
  }

  lemma LastGroupPads(s: seq<bv8>)
    requires |s| == 1 || |s| == 2
    ensures WellPadded(LastGroup(s)) && Pads(LastGroup(s)) == 3 - |s|
  {
    var g := LastGroup(s);
    DigitBack(Digit1(s[0]));
    DigitBack(if |s| == 1 then Digit2(s[0], 0) else Digit2(s[0], s[1]));
    if |s| == 2 {
      DigitBack(Digit3(s[1], 0));
    }
    var n := |s| + 1;
    assert Digits(g[..n]);
    NoPads(g[..n]);
    AllPads(g[n..]);
    PadsAppend(g[..n], g[n..]);
    assert g == g[..n] + g[n..];
  }

  lemma LastGroupUndone(s: seq<bv8>)
    requires |s| == 1 || |s| == 2
    ensures WellPadded(LastGroup(s)) && Decode(LastGroup(s)) == s
  {
    LastGroupPads(s);
    var g := LastGroup(s);
    assert g[..4] == g && g[4..] == [];
    DigitBack(Digit1(s[0]));
    if |s| == 1 {
      DigitBack(Digit2(s[0], 0));
      OneByteUndone(s[0]);
    } else {
      DigitBack(Digit2(s[0], s[1]));
      DigitBack(Digit3(s[1], 0));
      TwoBytesUndone(s[0], s[1]);
    }
  }

  lemma GroupBack(a: bv8, b: bv8, c: bv8)
    ensures Digits(Group(a, b, c)) && GroupBytes(Group(a, b, c)) == [a, b, c]
  {
    GroupIsDigits(a, b, c);
    NoPads(Group(a, b, c));
  }

  lemma {:induction false} RoundTrip(s: seq<bv8>)
    ensures WellPadded(Encode(s)) && Decode(Encode(s)) == s
  {
    if |s| == 1 || |s| == 2 {
      LastGroupUndone(s);
    } else if |s| >= 3 {
      RoundTrip(s[3..]);
      GroupBack(s[0], s[1], s[2]);
      Rejoined(Group(s[0], s[1], s[2]), Encode(s[3..]), s);
    }
  }

  lemma Rejoined(g: seq<bv8>, rest: seq<bv8>, s: seq<bv8>)
    requires |g| == 4 && Digits(g) && WellPadded(rest) && |s| >= 3
    requires GroupBytes(g) == [s[0], s[1], s[2]] && Decode(rest) == s[3..]
    ensures WellPadded(g + rest) && Decode(g + rest) == s
  {
    DigitsBefore(g, rest);
    DecodeGroupFirst(g, rest);
    assert s == [s[0], s[1], s[2]] + s[3..];
  }

  lemma DecodeGroupFirst(g: seq<bv8>, rest: seq<bv8>)
    requires |g| == 4
    ensures Decode(g + rest) == GroupBytes(g) + Decode(rest)
  {
    assert (g + rest)[..4] == g && (g + rest)[4..] == rest;
  }

  // Texts can be cut at group boundaries and decoded piece by piece.
  lemma {:induction false} DecodeSplits(s: seq<bv8>, t: seq<bv8>)
    requires |s| % 4 == 0
    ensures Decode(s + t) == Decode(s) + Decode(t)
    decreases |s|
  {
    if s == [] {
      assert s + t == t;
    } else {
      assert (s + t)[..4] == s[..4] && (s + t)[4..] == s[4..] + t;
      DecodeSplits(s[4..], t);
    }
  }

  lemma DecodeWholeGroup(s: seq<bv8>, g: seq<bv8>)
    requires |s| % 4 == 0 && |g| == 4
    ensures Decode(s + g) == Decode(s) + GroupBytes(g)
  {
    DecodeSplits(s, g);
    assert g[..4] == g && g[4..] == [];
    assert Decode(g) == GroupBytes(g) + [];
  }

  // Symbols that finish no group add nothing.
  lemma DecodeUnfinished(s: seq<bv8>, w: seq<bv8>)
    requires |s| % 4 == 0 && |w| < 4
    ensures Decode(s + w) == Decode(s)
  {
    DecodeSplits(s, w);
  }

  // Pads are counted from the start of the text; in a finished group that is its own pads.
  lemma PadsOfLastGroup(s: seq<bv8>, g: seq<bv8>)
    requires |g| == 4 && WellPadded(s + g)
    ensures Pads(s + g) == Pads(g) <= 2
  {
    PadsAppend(s, g);
    if Pads(s) > 0 {
      var i := SomePad(s);
      assert (s + g)[i] == PAD;
      forall k | 0 <= k < 4 ensures g[k] == PAD {
        assert (s + g)[|s| + k] == PAD;
      }
      AllPads(g);
    }
  }
}
