/**
 * The source's base64_encode, on buffers.
 */
module Base64Code {
  import opened Base64
  import opened Base64Bits

  // 0, -EINVAL and -ENOMEM.
  datatype Status = Success | Invalid | NoSpace

  // The hub's size_t.
  const SIZE_MAX: nat := 0xFFFF_FFFF

  // ---------- Encoding ----------

  lemma EncodeStep(src: seq<bv8>, i: nat)
    requires i + 3 <= |src| && i % 3 == 0
    ensures Encode(src[..i + 3]) == Encode(src[..i]) + Group(src[i], src[i + 1], src[i + 2])
  {
    assert src[..i + 3] == src[..i] + src[i..i + 3];
    EncodeSplits(src[..i], src[i..i + 3]);
    assert src[i..i + 3][3..] == [];
    assert Encode(src[i..i + 3]) == Group(src[i], src[i + 1], src[i + 2]) + [];
  }

  lemma {:induction false} EncodeSplits(s: seq<bv8>, t: seq<bv8>)
    requires |s| % 3 == 0
    ensures Encode(s + t) == Encode(s) + Encode(t)
    decreases |s|
  {
    if s == [] {
      assert s + t == t;
    } else {
      assert (s + t)[3..] == s[3..] + t;
      EncodeSplits(s[3..], t);
    }
  }

  // The buffer holds t, and from there on what it held before.
  ghost predicate Wrote(d: seq<bv8>, was: seq<bv8>, t: seq<bv8>) {
    |d| == |was| && |t| <= |d| && d[..|t|] == t && d[|t|..] == was[|t|..]
  }

  method PutGroup(dst: array<bv8>, p: nat, g: seq<bv8>, ghost was: seq<bv8>, ghost t: seq<bv8>) returns (p': nat)
    requires |g| == 4 && p == |t| && p + 4 <= dst.Length && Wrote(dst[..], was, t)
    modifies dst
    ensures p' == p + 4 && Wrote(dst[..], was, t + g)
  {
    ghost var now := dst[..];
    dst[p], dst[p + 1], dst[p + 2], dst[p + 3] := g[0], g[1], g[2], g[3];
    p' := p + 4;
    GroupPut(now, dst[..], was, t, g);
  }

  lemma GroupPut(now: seq<bv8>, next: seq<bv8>, was: seq<bv8>, t: seq<bv8>, g: seq<bv8>)
    requires |g| == 4 && Wrote(now, was, t) && |t| + 4 <= |now| == |next|
    requires next[..|t|] == now[..|t|] && next[|t|..|t| + 4] == g && next[|t| + 4..] == now[|t| + 4..]
    ensures Wrote(next, was, t + g)
  {
    var n := |t|;
    assert next[..n + 4] == next[..n] + next[n..n + 4];
    assert now[n + 4..] == now[n..][4..] && was[n + 4..] == was[n..][4..];
  }

  lemma EncodedPrefix(src: seq<bv8>, i: nat)
    requires i <= |src|
    ensures |Encode(src[..i])| <= |Encode(src)|
  {
    EncodedLength(src[..i]);
    EncodedLength(src);
  }

  lemma EncodeRest(src: seq<bv8>, i: nat)
    requires i <= |src| < i + 3 && i % 3 == 0
    ensures Encode(src) == Encode(src[..i]) + if i < |src| then LastGroup(src[i..]) else []
  {
    assert src == src[..i] + src[i..];
    EncodeSplits(src[..i], src[i..]);
  }

  // The encoding loop and the last group.
  method WriteGroups(dst: array<bv8>, src: seq<bv8>) returns (p: nat)
    requires |Encode(src)| < dst.Length
    modifies dst
    ensures p == |Encode(src)| && Wrote(dst[..], old(dst[..]), Encode(src))
  {
    ghost var was := dst[..];
    var n := |src| / 3 * 3;
    var i := 0;
    p := 0;
    while i < n
      invariant 0 <= i <= n && i % 3 == 0
      invariant p == |Encode(src[..i])| && Wrote(dst[..], was, Encode(src[..i]))
    {
      EncodeStep(src, i);
      EncodedPrefix(src, i + 3);
      p := PutGroup(dst, p, Group(src[i], src[i + 1], src[i + 2]), was, Encode(src[..i]));
      i := i + 3;
    }
    EncodeRest(src, i);
    if i < |src| {
      p := PutGroup(dst, p, LastGroup(src[i..]), was, Encode(src[..i]));
    }
  }

  method WriteEncoded(dst: array<bv8>, src: seq<bv8>) returns (p: nat)
    requires |Encode(src)| < dst.Length
    modifies dst
    ensures p == |Encode(src)|
    ensures dst[..p] == Encode(src) && dst[p] == 0 && dst[p + 1..] == old(dst[p + 1..])
  {
    p := WriteGroups(dst, src);
    ghost var was := dst[..];
    dst[p] := 0;
    assert dst[..p] == was[..p] && dst[p + 1..] == was[p..][1..];
  }

  method EncodeBuffer(dst: array?<bv8>, dlen: nat, src: seq<bv8>) returns (status: Status, olen: nat)
    requires |src| <= SIZE_MAX && dlen <= SIZE_MAX && (dst != null ==> dlen <= dst.Length)
    modifies dst
    ensures status != Invalid
    ensures status == Success <==> src == [] || (dst != null && |Encode(src)| < dlen)
    ensures status == Success ==> olen == |Encode(src)|
    ensures status == Success && src != [] ==>
      dst[..olen] == Encode(src) && dst[olen] == 0 && dst[olen + 1..] == old(dst[olen + 1..])
    ensures status == Success && src != [] ==> SameBits(dst[..olen], src) && ZerosAndPads(src, dst[..olen])
    ensures status == NoSpace ==> olen == if |Encode(src)| < SIZE_MAX then |Encode(src)| + 1 else SIZE_MAX
    ensures dst != null && (status != Success || src == []) ==> dst[..] == old(dst[..])
  {
    if |src| == 0 {
      return Success, 0;
    }
    EncodedLength(src);
    var n := |src| / 3 + (if |src| % 3 != 0 then 1 else 0);
    assert |Encode(src)| == 4 * n;
    if n > (SIZE_MAX - 1) / 4 {
      return NoSpace, SIZE_MAX;
    }
    n := n * 4;
    if dst == null || dlen < n + 1 {
      return NoSpace, n + 1;
    }
    var p := WriteEncoded(dst, src);
    EncodedBits(src);
    EncodedEnd(src);
    status, olen := Success, p;
  }
}
