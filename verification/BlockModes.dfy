/**
 * Cipher block chaining and counter mode (NIST SP 800-38A, sections 6.2 and 6.5) over any block
 * cipher: an encryption e and a decryption d that undoes it.
 */
module BlockModes {
  import opened AesBlock

  type BlockFunction = Block -> Block

  // Whole blocks.
  predicate Whole(s: seq<bv8>) {
    |s| % 16 == 0
  }

  function Xor(s: Block, t: Block): Block {
    seq(16, i requires 0 <= i < 16 => s[i] ^ t[i])
  }

  lemma XorCancels(s: Block, t: Block)
    ensures Xor(Xor(s, t), t) == s
  {
  }

  // ---------- CBC ----------

  function CbcEncrypt(e: BlockFunction, iv: Block, s: seq<bv8>): (c: seq<bv8>)
    requires Whole(s)
    ensures |c| == |s|
    decreases |s|
  {
    if s == [] then []
    else
      var c := e(Xor(s[..16], iv));
      c + CbcEncrypt(e, c, s[16..])
  }

  function CbcDecrypt(d: BlockFunction, iv: Block, c: seq<bv8>): (s: seq<bv8>)
    requires Whole(c)
    ensures |s| == |c|
    decreases |c|
  {
    if c == [] then []
    else Xor(d(c[..16]), iv) + CbcDecrypt(d, c[..16], c[16..])
  }

  // The vector left for the next call: the last block of ciphertext.
  function LastBlock(iv: Block, c: seq<bv8>): Block
    requires Whole(c)
  {
    if c == [] then iv else c[|c| - 16..]
  }

  lemma {:induction false} CbcRoundTrip(e: BlockFunction, d: BlockFunction, iv: Block, s: seq<bv8>)
    requires Whole(s) && forall b :: d(e(b)) == b
    ensures CbcDecrypt(d, iv, CbcEncrypt(e, iv, s)) == s
    decreases |s|
  {
    if s != [] {
      var x: Block := Xor(s[..16], iv);
      var c: Block := e(x);
      var rest := CbcEncrypt(e, c, s[16..]);
      assert CbcEncrypt(e, iv, s) == c + rest;
      assert (c + rest)[..16] == c && (c + rest)[16..] == rest;
      assert d(c) == x;
      XorCancels(s[..16], iv);
      CbcRoundTrip(e, d, c, s[16..]);
      assert s == s[..16] + s[16..];
    }
  }

  lemma WholeRest(s: seq<bv8>)
    requires Whole(s) && s != []
    ensures |s| >= 16 && Whole(s[16..])
  {
  }

  lemma LastOfBoth(iv: Block, c: Block, rest: seq<bv8>)
    requires Whole(rest)
    ensures Whole(c + rest) && LastBlock(iv, c + rest) == LastBlock(c, rest)
  {
    if rest != [] {
      assert (c + rest)[|c + rest| - 16..] == rest[|rest| - 16..];
    } else {
      assert c + rest == c;
    }
  }

  lemma {:induction false} CbcEncryptSplits(e: BlockFunction, iv: Block, s: seq<bv8>, t: seq<bv8>)
    requires Whole(s) && Whole(t)
    ensures var c := CbcEncrypt(e, iv, s);
            CbcEncrypt(e, iv, s + t) == c + CbcEncrypt(e, LastBlock(iv, c), t)
    decreases |s|
  {
    if s == [] {
      assert s + t == t;
    } else {
      WholeRest(s);
      var c: Block := e(Xor(s[..16], iv));
      assert (s + t)[..16] == s[..16] && (s + t)[16..] == s[16..] + t;
      CbcEncryptSplits(e, c, s[16..], t);
      var rest := CbcEncrypt(e, c, s[16..]);
      LastOfBoth(iv, c, rest);
      assert c + rest + CbcEncrypt(e, LastBlock(c, rest), t) == c + (rest + CbcEncrypt(e, LastBlock(c, rest), t));
    }
  }

  // Block n of the plaintext is made of blocks n and n - 1 of the ciphertext and nothing else.
  lemma {:induction false} CbcDecryptIsLocal(d: BlockFunction, iv: Block, c: seq<bv8>, n: nat)
    requires Whole(c) && 16 * n + 16 <= |c|
    ensures CbcDecrypt(d, iv, c)[16 * n..16 * n + 16]
         == Xor(d(c[16 * n..16 * n + 16]), if n == 0 then iv else c[16 * n - 16..16 * n])
    decreases n
  {
    var head: Block := c[..16];
    var first: Block := Xor(d(head), iv);
    var rest := CbcDecrypt(d, head, c[16..]);
    assert CbcDecrypt(d, iv, c) == first + rest;
    if n > 0 {
      CbcDecryptIsLocal(d, head, c[16..], n - 1);
      SliceBehind(first, rest, 16 * n - 16);
      SliceBehind(head, c[16..], 16 * n - 16);
      assert head + c[16..] == c;
      if n > 1 {
        SliceBehind(head, c[16..], 16 * n - 32);
      }
    }
  }

  // The block before block n of a ciphertext.
  function Previous(iv: Block, c: seq<bv8>, n: nat): Block
    requires 16 * n <= |c|
  {
    if n == 0 then iv else c[16 * n - 16..16 * n]
  }

  // By the byte: byte i of block n is byte i of the block deciphered and byte i of the block before.
  lemma CbcDecryptBytes(d: BlockFunction, iv: Block, c: seq<bv8>, n: nat, i: nat)
    requires Whole(c) && 16 * n + 16 <= |c| && i < 16
    ensures CbcDecrypt(d, iv, c)[16 * n + i] == d(c[16 * n..16 * n + 16])[i] ^ Previous(iv, c, n)[i]
  {
    CbcDecryptIsLocal(d, iv, c, n);
    var s := CbcDecrypt(d, iv, c);
    assert s[16 * n..16 * n + 16][i] == s[16 * n + i];
  }

  ghost predicate AddedBytes(x: Block, s: seq<bv8>, at: nat, t: Block)
    requires at + 16 <= |s|
  {
    forall i :: 0 <= i < 16 ==> x[i] == s[at + i] ^ t[i]
  }

  lemma BytesBehind(x: Block, s: seq<bv8>, n: nat, t: Block)
    requires n > 0 && 16 * n + 16 <= |s| && AddedBytes(x, s[16..], 16 * (n - 1), t)
    ensures AddedBytes(x, s, 16 * n, t)
  {
    forall i | 0 <= i < 16 ensures x[i] == s[16 * n + i] ^ t[i] {
      assert s[16..][16 * (n - 1) + i] == s[16 * n + i];
    }
  }

  // Block n of the ciphertext is the encryption of block n of the plaintext with the block before added to it
  // byte by byte.
  lemma {:induction false} CbcEncryptBlocks(e: BlockFunction, iv: Block, s: seq<bv8>, n: nat) returns (x: Block)
    requires Whole(s) && 16 * n + 16 <= |s|
    ensures CbcEncrypt(e, iv, s)[16 * n..16 * n + 16] == e(x)
    ensures AddedBytes(x, s, 16 * n, Previous(iv, CbcEncrypt(e, iv, s), n))
    decreases n
  {
    var first: Block := e(Xor(s[..16], iv));
    var rest := CbcEncrypt(e, first, s[16..]);
    assert CbcEncrypt(e, iv, s) == first + rest;
    if n == 0 {
      x := Xor(s[..16], iv);
    } else {
      x := CbcEncryptBlocks(e, first, s[16..], n - 1);
      SliceBehind(first, rest, 16 * n - 16);
      if n > 1 {
        SliceBehind(first, rest, 16 * n - 32);
      }
      BytesBehind(x, s, n, Previous(first, rest, n - 1));
    }
  }

  lemma SliceBehind(first: Block, rest: seq<bv8>, k: nat)
    requires k + 16 <= |rest|
    ensures (first + rest)[k + 16..k + 32] == rest[k..k + 16]
  {
  }

  // ---------- The big-endian counter ----------

  function Number(s: seq<bv8>): nat {
    if s == [] then 0 else 256 * Number(s[..|s| - 1]) + s[|s| - 1] as nat
  }

  function Pow256(n: nat): (p: nat)
    ensures p > 0
  {
    if n == 0 then 1 else 256 * Pow256(n - 1)
  }

  function Increment(s: seq<bv8>): (t: seq<bv8>)
    ensures |t| == |s|
  {
    if s == [] then []
    else if s[|s| - 1] == 255 then Increment(s[..|s| - 1]) + [0]
    else s[..|s| - 1] + [s[|s| - 1] + 1]
  }

  lemma {:induction false} NumberBound(s: seq<bv8>)
    ensures Number(s) < Pow256(|s|)
  {
    if s != [] {
      NumberBound(s[..|s| - 1]);
    }
  }

  lemma ByteSuccessor(x: bv8)
    ensures x == 255 <==> x as nat == 255
    ensures x != 255 ==> (x + 1) as nat == x as nat + 1
  {
  }

  lemma {:induction false} IncrementAddsOne(s: seq<bv8>)
    ensures Number(Increment(s)) == if Number(s) + 1 == Pow256(|s|) then 0 else Number(s) + 1
  {
    if s != [] {
      var n := |s| - 1;
      ByteSuccessor(s[n]);
      if s[n] == 255 {
        IncrementAddsOne(s[..n]);
        assert Increment(s)[..n] == Increment(s[..n]);
      } else {
        assert Increment(s)[..n] == s[..n];
        NumberBound(s[..n]);
      }
    }
  }

  lemma LastDigit(p: nat, x: nat, q: nat, y: nat)
    requires x < 256 && y < 256 && 256 * p + x == 256 * q + y
    ensures p == q && x == y
  {
  }

  // A block is known by its number.
  lemma {:induction false} NumberInjective(s: seq<bv8>, t: seq<bv8>)
    requires |s| == |t| && Number(s) == Number(t)
    ensures s == t
  {
    if s != [] {
      var n := |s| - 1;
      LastDigit(Number(s[..n]), s[n] as nat, Number(t[..n]), t[n] as nat);
      ByteInjective(s[n], t[n]);
      NumberInjective(s[..n], t[..n]);
      assert s == s[..n] + [s[n]] && t == t[..n] + [t[n]];
    }
  }

  lemma ByteInjective(x: bv8, y: bv8)
    ensures x as nat == y as nat ==> x == y
  {
    assert (x as nat) as bv8 == x && (y as nat) as bv8 == y;
  }

  // The counter k steps after iv.
  function Counter(iv: seq<bv8>, k: nat): (t: seq<bv8>)
    ensures |t| == |iv|
  {
    if k == 0 then iv else Increment(Counter(iv, k - 1))
  }

  lemma SmallMultiple(d: int, m: int, e: int)
    requires d * m == e && -m < e < m
    ensures e == 0
  {
  }

  lemma ModUnique(v: nat, q: nat, m: nat, r: nat)
    requires v == q * m + r && r < m
    ensures v % m == r
  {
    var d, t := v / m, v % m;
    assert d * m + t == v;
    assert (d - q) * m == d * m - q * m;
    SmallMultiple(d - q, m, r - t);
  }

  lemma NextReduced(v: nat, m: nat, t: nat)
    requires m > 0 && t == v % m
    ensures (if t + 1 == m then 0 else t + 1) == (v + 1) % m
  {
    var d := v / m;
    assert d * m + t == v;
    if t + 1 == m {
      assert (d + 1) * m == v + 1;
      ModUnique(v + 1, d + 1, m, 0);
    } else {
      ModUnique(v + 1, d, m, t + 1);
    }
  }

  lemma {:induction false} CounterAdds(iv: seq<bv8>, k: nat)
    ensures Number(Counter(iv, k)) == (Number(iv) + k) % Pow256(|iv|)
  {
    if k == 0 {
      NumberBound(iv);
      ModUnique(Number(iv), 0, Pow256(|iv|), Number(iv));
    } else {
      CounterAdds(iv, k - 1);
      var last := Counter(iv, k - 1);
      IncrementAddsOne(last);
      NextReduced(Number(iv) + k - 1, Pow256(|iv|), Number(last));
    }
  }

  // Two runs of the same steps, one of which starts where the other is after j.
  lemma {:induction false} SameSteps(f: seq<bv8> -> seq<bv8>, c: nat -> seq<bv8>, d: nat -> seq<bv8>, j: nat, k: nat)
    requires (forall n: nat :: c(n + 1) == f(c(n))) && (forall n: nat :: d(n + 1) == f(d(n))) && d(0) == c(j)
    ensures d(k) == c(j + k)
  {
    if k > 0 {
      SameSteps(f, c, d, j, k - 1);
      assert d(k - 1 + 1) == f(d(k - 1)) && c(j + k - 1 + 1) == f(c(j + k - 1));
    }
  }

  lemma CounterOfCounter(iv: seq<bv8>, j: nat, k: nat)
    ensures Counter(Counter(iv, j), k) == Counter(iv, j + k)
  {
    SameSteps(Increment, (n: nat) => Counter(iv, n), (n: nat) => Counter(Counter(iv, j), n), j, k);
  }

  // ---------- CTR ----------

  function Stream(e: BlockFunction, iv: Block, i: nat): bv8 {
    e(Counter(iv, i / 16))[i % 16]
  }

  function CtrXor(e: BlockFunction, iv: Block, s: seq<bv8>): seq<bv8> {
    seq(|s|, i requires 0 <= i < |s| => s[i] ^ Stream(e, iv, i))
  }

  function BlocksIn(length: nat): nat {
    (length + 15) / 16
  }

  lemma CtrTwiceIsIdentity(e: BlockFunction, iv: Block, s: seq<bv8>)
    ensures CtrXor(e, iv, CtrXor(e, iv, s)) == s
  {
    forall i | 0 <= i < |s|
      ensures CtrXor(e, iv, CtrXor(e, iv, s))[i] == s[i]
    {
      XorTwice(s[i], Stream(e, iv, i));
    }
  }

  lemma XorTwice(x: bv8, y: bv8)
    ensures (x ^ y) ^ y == x
  {
  }

  // One call on s + t against a call on s and one on t, from the vector the first call leaves.
  ghost predicate CtrSplits(e: BlockFunction, iv: Block, s: seq<bv8>, t: seq<bv8>) {
    CtrXor(e, iv, s + t) == CtrXor(e, iv, s) + CtrXor(e, Counter(iv, BlocksIn(|s|)), t)
  }

  lemma AfterBlocks(n: nat, j: nat) returns (d: nat, r: nat)
    ensures d == (16 * n + j) / 16 && d == n + j / 16 && r == (16 * n + j) % 16 && r == j % 16
  {
    d, r := n + j / 16, j % 16;
  }

  lemma StreamFrom(e: BlockFunction, iv: Block, n: nat, j: nat, i: nat)
    requires i == 16 * n + j
    ensures Stream(e, iv, i) == Stream(e, Counter(iv, n), j)
  {
    var d, r := AfterBlocks(n, j);
    CounterOfCounter(iv, n, j / 16);
    assert Stream(e, iv, i) == e(Counter(iv, d))[r];
  }

  lemma CtrSplitsAtBlocks(e: BlockFunction, iv: Block, s: seq<bv8>, t: seq<bv8>)
    requires Whole(s) || t == []
    ensures CtrSplits(e, iv, s, t)
  {
    var n := BlocksIn(|s|);
    if t != [] {
      assert |s| == 16 * n;
      forall j | 0 <= j < |t|
        ensures CtrXor(e, iv, s + t)[|s| + j] == CtrXor(e, Counter(iv, n), t)[j]
      {
        StreamFrom(e, iv, n, j, |s| + j);
      }
      assert CtrXor(e, iv, s + t)[|s|..] == CtrXor(e, Counter(iv, n), t);
    } else {
      assert s + t == s;
    }
    assert CtrXor(e, iv, s + t)[..|s|] == CtrXor(e, iv, s);
  }

  lemma CounterIs(iv: Block, k: nat, c: Block)
    requires Number(c) == (Number(iv) + k) % Pow256(16)
    ensures c == Counter(iv, k)
  {
    CounterAdds(iv, k);
    NumberInjective(c, Counter(iv, k));
  }

  // Byte i is combined with byte i % 16 of the encryption of the vector plus i / 16.
  lemma CtrBytes(e: BlockFunction, iv: Block, s: seq<bv8>, i: nat, c: Block)
    requires i < |s| && Number(c) == (Number(iv) + i / 16) % Pow256(16)
    ensures CtrXor(e, iv, s)[i] == s[i] ^ e(c)[i % 16]
  {
    CounterIs(iv, i / 16, c);
    CtrAt(e, iv, s, i);
  }

  lemma XorDiffers(x: bv8, y: bv8, z: bv8)
    requires y != z
    ensures x ^ y != x ^ z
  {
  }

  lemma PartOfBlock(i: nat)
    requires i % 16 != 0
    ensures BlocksIn(i) == i / 16 + 1
  {
  }

  lemma CtrAt(e: BlockFunction, iv: Block, s: seq<bv8>, i: nat)
    requires i < |s|
    ensures |CtrXor(e, iv, s)| == |s| && CtrXor(e, iv, s)[i] == s[i] ^ Stream(e, iv, i)
  {
  }

  // A split makes the key stream after s begin like the one that the second call starts from.
  lemma CtrSplitAgrees(e: BlockFunction, iv: Block, next: Block, s: seq<bv8>, t: seq<bv8>)
    requires t != [] && CtrXor(e, iv, s + t) == CtrXor(e, iv, s) + CtrXor(e, next, t)
    ensures Stream(e, iv, |s|) == Stream(e, next, 0)
  {
    CtrAt(e, iv, s + t, |s|);
    CtrAt(e, next, t, 0);
    var x, y := CtrXor(e, iv, s), CtrXor(e, next, t);
    assert (x + y)[|s|] == y[0];
    if Stream(e, iv, |s|) != Stream(e, next, 0) {
      XorDiffers(t[0], Stream(e, iv, |s|), Stream(e, next, 0));
    }
  }

  // The unused end of the last key-stream block is dropped: splitting inside a block asks two different
  // places of the key stream to agree.
  lemma CtrSplitInside(e: BlockFunction, iv: Block, s: seq<bv8>, t: seq<bv8>)
    requires !Whole(s) && t != [] && CtrSplits(e, iv, s, t)
    ensures e(Counter(iv, |s| / 16))[|s| % 16] == e(Counter(iv, |s| / 16 + 1))[0]
  {
    PartOfBlock(|s|);
    var next: Block := Counter(iv, |s| / 16 + 1);
    CtrSplitAgrees(e, iv, next, s, t);
    FirstOfStream(e, next);
  }

  lemma FirstOfStream(e: BlockFunction, iv: Block)
    ensures Stream(e, iv, 0) == e(iv)[0]
  {
  }
}
