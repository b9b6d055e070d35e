/**
 * The source's base64_decode: the first pass, the size check, and the second pass that writes.
 */
module Base64Decoder {
  import opened Base64
  import opened Base64Bits
  import opened Base64Code
  import opened Base64Scan

  // The 32-bit accumulator: symbols are shifted in and never cleared out.
  function ShiftIn(x: bv32, c: bv8): bv32 {
    (x << 6) | (SixBits(c) as bv32)
  }

  function Accumulate(x: bv32, w: seq<bv8>): bv32 {
    if w == [] then x else ShiftIn(Accumulate(x, w[..|w| - 1]), w[|w| - 1])
  }

  function ByteAt16(x: bv32): bv8 { ((x >> 16) & 0xff) as bv8 }
  function ByteAt8(x: bv32): bv8 { ((x >> 8) & 0xff) as bv8 }
  function ByteAt0(x: bv32): bv8 { (x & 0xff) as bv8 }

  function LowBytes(x: bv32): (t: seq<bv8>)
    ensures |t| == 3
  {
    [ByteAt16(x), ByteAt8(x), ByteAt0(x)]
  }

  function Join(x: bv32, a: bv8, b: bv8, c: bv8, d: bv8): bv32 {
    (((((((x << 6) | (a as bv32)) << 6) | (b as bv32)) << 6) | (c as bv32)) << 6) | (d as bv32)
  }

  lemma JoinBytes(x: bv32, a: bv8, b: bv8, c: bv8, d: bv8)
    requires a < 64 && b < 64 && c < 64 && d < 64
    ensures LowBytes(Join(x, a, b, c, d)) == Bytes(a, b, c, d)
  {
  }

  lemma AccumulateOne(x: bv32, w: seq<bv8>, c: bv8)
    ensures Accumulate(x, w + [c]) == ShiftIn(Accumulate(x, w), c)
  {
    assert (w + [c])[..|w|] == w;
  }

  lemma AccumulateFour(x: bv32, g: seq<bv8>)
    requires |g| == 4
    ensures Accumulate(x, g) == ShiftIn(ShiftIn(ShiftIn(ShiftIn(x, g[0]), g[1]), g[2]), g[3])
  {
    assert g == g[..3] + [g[3]] && g[..3] == g[..2] + [g[2]] && g[..2] == g[..1] + [g[1]] && g[..1] == [] + [g[0]];
    AccumulateOne(x, [], g[0]);
    AccumulateOne(x, g[..1], g[1]);
    AccumulateOne(x, g[..2], g[2]);
    AccumulateOne(x, g[..3], g[3]);
  }

  lemma ShiftInIsJoin(x: bv32, a: bv8, b: bv8, c: bv8, d: bv8)
    ensures ShiftIn(ShiftIn(ShiftIn(ShiftIn(x, a), b), c), d) == Join(x, SixBits(a), SixBits(b), SixBits(c), SixBits(d))
  {
  }

  // After four symbols the low three bytes are those of the group, whatever was there before.
  lemma AccumulatedBytes(x: bv32, g: seq<bv8>)
    requires |g| == 4
    ensures LowBytes(Accumulate(x, g)) == Bytes(SixBits(g[0]), SixBits(g[1]), SixBits(g[2]), SixBits(g[3]))
  {
    AccumulateFour(x, g);
    ShiftInIsJoin(x, g[0], g[1], g[2], g[3]);
    JoinBytes(x, SixBits(g[0]), SixBits(g[1]), SixBits(g[2]), SixBits(g[3]));
  }

  // The registers of the second pass after the symbols t, the last n of which finish no group yet; y is
  // what the accumulator held before them.
  datatype Registers = Registers(j: int, n: nat, x: bv32)

  ghost predicate Writing(t: seq<bv8>, r: Registers, y: bv32) {
    && r.n == |t| % 4 && r.j == 3 - Pads(t)
    && r.x == Accumulate(y, t[|t| - r.n..])
  }

  function PadCount(c: bv8): nat {
    if c == PAD then 1 else 0
  }

  lemma PadsNext(t: seq<bv8>, c: bv8)
    ensures Pads(t + [c]) == Pads(t) + PadCount(c)
  {
    assert (t + [c])[..|t|] == t;
  }

  lemma AccumulateTail(y: bv32, t: seq<bv8>, k: nat, c: bv8)
    requires k <= |t|
    ensures Accumulate(y, (t + [c])[k..]) == ShiftIn(Accumulate(y, t[k..]), c)
  {
    assert (t + [c])[k..] == t[k..] + [c];
    AccumulateOne(y, t[k..], c);
  }

  lemma {:induction false} DecodeNext(t: seq<bv8>, c: bv8)
    requires |t| % 4 < 3
    ensures Decode(t + [c]) == Decode(t)
  {
    if |t| >= 4 {
      assert (t + [c])[..4] == t[..4] && (t + [c])[4..] == t[4..] + [c];
      DecodeNext(t[4..], c);
    }
  }

  lemma NextInGroup(n: nat)
    requires n % 4 < 3
    ensures (n + 1) % 4 == n % 4 + 1
  {
  }

  lemma GroupBefore(n: nat)
    requires n % 4 == 3
    ensures n >= 3 && (n - 3) % 4 == 0 && (n + 1) % 4 == 0
  {
  }

  lemma ReadSymbol(t: seq<bv8>, r: Registers, y: bv32, c: bv8)
    requires Writing(t, r, y) && r.n < 3
    ensures Writing(t + [c], Registers(r.j - PadCount(c), r.n + 1, ShiftIn(r.x, c)), y)
    ensures Decode(t + [c]) == Decode(t)
  {
    PadsNext(t, c);
    NextInGroup(|t|);
    AccumulateTail(y, t, |t| - r.n, c);
    DecodeNext(t, c);
  }

  lemma DecodeLast(s: seq<bv8>, g: seq<bv8>, y: bv32)
    requires |s| % 4 == 0 && |g| == 4 && WellPadded(s + g)
    ensures Pads(s + g) <= 2 && Decode(s + g) == Decode(s) + LowBytes(Accumulate(y, g))[..3 - Pads(s + g)]
  {
    PadsOfLastGroup(s, g);
    DecodeWholeGroup(s, g);
    AccumulatedBytes(y, g);
  }

  lemma DecodeFourth(t: seq<bv8>, c: bv8, y: bv32)
    requires |t| % 4 == 3 && WellPadded(t + [c])
    ensures Pads(t + [c]) <= 2
    ensures Decode(t + [c]) == Decode(t) + LowBytes(Accumulate(y, (t + [c])[|t| - 3..]))[..3 - Pads(t + [c])]
  {
    GroupBefore(|t|);
    var k := |t| - 3;
    var s, w, g := t[..k], t[k..], (t + [c])[k..];
    assert t == s + w && t + [c] == s + g;
    DecodeUnfinished(s, w);
    DecodeLast(s, g, y);
  }

  // The fourth symbol of a group: its bytes are there to be written, as many as j says.
  lemma FinishGroup(t: seq<bv8>, r: Registers, y: bv32, c: bv8)
    requires Writing(t, r, y) && r.n == 3 && WellPadded(t + [c])
    ensures var j, x := r.j - PadCount(c), ShiftIn(r.x, c);
            && 1 <= j <= 3 && Decode(t + [c]) == Decode(t) + LowBytes(x)[..j]
            && Writing(t + [c], Registers(j, 0, x), x)
  {
    PadsNext(t, c);
    GroupBefore(|t|);
    AccumulateTail(y, t, |t| - 3, c);
    DecodeFourth(t, c, y);
    assert (t + [c])[|t| + 1..] == [];
  }

  method PutBytes(dst: array<bv8>, p: nat, x: bv32, j: int, ghost was: seq<bv8>, ghost t: seq<bv8>) returns (q: nat)
    requires 1 <= j <= 3 && p == |t| && p + j <= dst.Length && Wrote(dst[..], was, t)
    modifies dst
    ensures q == p + j && Wrote(dst[..], was, t + LowBytes(x)[..j])
  {
    q := p;
    if j > 0 {
      dst[q] := ByteAt16(x);
      q := q + 1;
    }
    if j > 1 {
      dst[q] := ByteAt8(x);
      q := q + 1;
    }
    if j > 2 {
      dst[q] := ByteAt0(x);
      q := q + 1;
    }
    assert dst[..][q..] == old(dst[..])[p..][j..] && was[q..] == was[p..][j..];
  }

  lemma {:induction false} DecodePrefixLength(s: seq<bv8>, t: seq<bv8>)
    ensures |Decode(s)| <= |Decode(s + t)|
    decreases |s|
  {
    if |s| >= 4 {
      assert (s + t)[..4] == s[..4] && (s + t)[4..] == s[4..] + t;
      DecodePrefixLength(s[4..], t);
    }
  }

  lemma PrefixFits(src: seq<bv8>, i: nat)
    requires i <= |src| && Accepts(src)
    ensures WellPadded(Strip(src[..i])) && |Decode(Strip(src[..i]))| <= |Decode(Strip(src))|
  {
    if !WellPadded(Strip(src[..i])) {
      BadPrefix(src, i);
    }
    StripAppend(src[..i], src[i..]);
    assert src == src[..i] + src[i..];
    DecodePrefixLength(Strip(src[..i]), Strip(src[i..]));
  }

  ghost predicate PrefixGood(src: seq<bv8>, i: nat, size: nat)
    requires i <= |src|
  {
    WellPadded(Strip(src[..i])) && |Decode(Strip(src[..i]))| <= size
  }

  // The body of the loop, for a byte that is not white space.
  method TakeSymbol(dst: array<bv8>, p: nat, r: Registers, c: bv8,
                    ghost was: seq<bv8>, ghost t: seq<bv8>, ghost y: bv32)
    returns (p': nat, r': Registers, ghost y': bv32)
    requires Writing(t, r, y) && p == |Decode(t)| && Wrote(dst[..], was, Decode(t))
    requires WellPadded(t + [c]) && |Decode(t + [c])| <= dst.Length
    modifies dst
    ensures Writing(t + [c], r', y') && p' == |Decode(t + [c])| && Wrote(dst[..], was, Decode(t + [c]))
  {
    if r.n < 3 {
      ReadSymbol(t, r, y, c);
    } else {
      FinishGroup(t, r, y, c);
    }
    r' := Registers(r.j - PadCount(c), r.n + 1, ShiftIn(r.x, c));
    p', y' := p, y;
    if r'.n == 4 {
      r' := r'.(n := 0);
      p' := PutBytes(dst, p, r'.x, r'.j, was, Decode(t));
      y' := r'.x;
    }
  }

  method TakeByte(dst: array<bv8>, p: nat, r: Registers, c: bv8,
                  ghost was: seq<bv8>, ghost t: seq<bv8>, ghost y: bv32, ghost next: seq<bv8>)
    returns (p': nat, r': Registers, ghost y': bv32)
    requires Writing(t, r, y) && p == |Decode(t)| && Wrote(dst[..], was, Decode(t))
    requires next == t + (if IsBlank(c) then [] else [c]) && WellPadded(next) && |Decode(next)| <= dst.Length
    modifies dst
    ensures Writing(next, r', y') && p' == |Decode(next)| && Wrote(dst[..], was, Decode(next))
  {
    if IsBlank(c) {
      assert next == t;
      return p, r, y;
    }
    p', r', y' := TakeSymbol(dst, p, r, c, was, t, y);
  }

  method SecondPass(dst: array<bv8>, src: seq<bv8>) returns (p: nat)
    requires forall i: nat :: i <= |src| ==> PrefixGood(src, i, dst.Length)
    modifies dst
    ensures p == |Decode(Strip(src))| && Wrote(dst[..], old(dst[..]), Decode(Strip(src)))
  {
    var r := Registers(3, 0, 0);
    p := 0;
    ghost var y := r.x;
    ghost var was := dst[..];
    ghost var t := Strip(src[..0]);
    for i := 0 to |src|
      invariant t == Strip(src[..i])
      invariant Writing(t, r, y) && p == |Decode(t)| && Wrote(dst[..], was, Decode(t))
    {
      StripNext(src, i);
      assert PrefixGood(src, i + 1, dst.Length);
      ghost var next := Strip(src[..i + 1]);
      p, r, y := TakeByte(dst, p, r, src[i], was, t, y, next);
      t := next;
    }
    assert src[..|src|] == src;
  }

  method WriteDecoded(dst: array<bv8>, src: seq<bv8>) returns (p: nat)
    requires Accepts(src) && |Decode(Strip(src))| <= dst.Length
    modifies dst
    ensures p == |Decode(Strip(src))| && Wrote(dst[..], old(dst[..]), Decode(Strip(src)))
  {
    forall i: nat | i <= |src| ensures PrefixGood(src, i, dst.Length) {
      PrefixFits(src, i);
    }
    p := SecondPass(dst, src);
  }

  method DecodeBuffer(dst: array?<bv8>, dlen: nat, src: seq<bv8>) returns (status: Status, olen: nat)
    requires |src| <= SIZE_MAX && dlen <= SIZE_MAX && (dst != null ==> dlen <= dst.Length)
    modifies dst
    ensures status == Invalid <==> !Accepts(src)
    ensures Accepts(src) ==>
      var t := Strip(src);
      var size := SizeNeeded(|t|, Pads(t));
      && (status == Success <==> t == [] || (dst != null && size <= dlen))
      && olen == (if status == Success then |Decode(t)| else size)
      && (status == Success && dst != null ==> olen <= dlen && dst[..olen] == Decode(t) && dst[olen..] == old(dst[olen..]))
    ensures status == Success && dst != null ==> SameBits(Strip(src), dst[..olen])
    ensures dst != null && status != Success ==> dst[..] == old(dst[..])
  {
    var ok, n, j := FirstPass(src);
    if !ok {
      return Invalid, 0;
    }
    if n == 0 {
      return Success, 0;
    }
    SizeCovers(Strip(src));
    var size := SizeNeeded(n, j);
    if dst == null || dlen < size {
      return NoSpace, size;
    }
    olen := WriteDecoded(dst, src);
    forall k: nat | k < 8 * olen ensures SameBit(Strip(src), Decode(Strip(src)), k) {
      DecodedBits(Strip(src), k);
    }
    status := Success;
  }

  // What the encoder wrote is accepted as it stands and decoded back, into a buffer of just the size of
  // the original.
  lemma EncodedDecodesBack(s: seq<bv8>)
    ensures Accepts(Encode(s)) && Decode(Strip(Encode(s))) == s
    ensures SizeNeeded(|Strip(Encode(s))|, Pads(Strip(Encode(s)))) == |s|
  {
    RoundTrip(s);
    EncodedLength(s);
    PlainTextAccepted(Encode(s));
    SizeIsEnough(Encode(s));
  }
}
