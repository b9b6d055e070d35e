/**
 * The source's AES context and its three buffer operations, in place, proved against `BlockModes` for
 * the cipher of the context's round keys.
 */
module AesModes {
  import opened BlockModes
  import B = AesBlock
  import A = Aes
  import K = AesKeys

  function Encryption(keys: B.RoundKeys): BlockFunction {
    (b: B.Block) => B.Cipher(b, keys)
  }

  function Decryption(keys: B.RoundKeys): BlockFunction {
    (b: B.Block) => B.InvCipher(b, keys)
  }

  lemma DecryptionUndoes(keys: B.RoundKeys)
    ensures forall b :: Decryption(keys)(Encryption(keys)(b)) == b
  {
    forall b: B.Block ensures Decryption(keys)(Encryption(keys)(b)) == b {
      B.InvCipherUndoesCipher(b, keys);
    }
  }

  // Under AES, decrypting what was encrypted from the same vector gives the plaintext back; it takes
  // nothing of the round keys but their number.
  lemma AesCbcRoundTrip(keys: B.RoundKeys, iv: B.Block, s: seq<bv8>)
    requires Whole(s)
    ensures CbcDecrypt(Decryption(keys), iv, CbcEncrypt(Encryption(keys), iv, s)) == s
  {
    DecryptionUndoes(keys);
    CbcRoundTrip(Encryption(keys), Decryption(keys), iv, s);
  }

  lemma {:induction false} CbcEncryptAppend(e: BlockFunction, iv: B.Block, s: seq<bv8>, b: B.Block)
    requires Whole(s)
    ensures var c := CbcEncrypt(e, iv, s);
            CbcEncrypt(e, iv, s + b) == c + e(Xor(b, LastBlock(iv, c)))
  {
    CbcEncryptSplits(e, iv, s, b);
    var last: B.Block := LastBlock(iv, CbcEncrypt(e, iv, s));
    assert b[..16] == b && b[16..] == [];
    var x: B.Block := e(Xor(b, last));
    assert x + [] == x;
  }

  lemma {:induction false} CbcDecryptAppend(d: BlockFunction, iv: B.Block, c: seq<bv8>, b: B.Block)
    requires Whole(c)
    ensures CbcDecrypt(d, iv, c + b) == CbcDecrypt(d, iv, c) + Xor(d(b), LastBlock(iv, c))
    decreases |c|
  {
    if c == [] {
      assert c + b == b && b[..16] == b && b[16..] == [];
    } else {
      var head: B.Block := c[..16];
      assert (c + b)[..16] == head && (c + b)[16..] == c[16..] + b;
      CbcDecryptAppend(d, head, c[16..], b);
      assert LastBlock(head, c[16..]) == LastBlock(iv, c);
    }
  }

  // ---------- Where counter mode may be split ----------

  lemma SameRoundKey(s: B.Block, keys: B.RoundKeys, other: B.RoundKeys, round: nat)
    requires keys[..160] == other[..160] && round < B.ROUNDS
    ensures B.AddRoundKey(s, keys, round) == B.AddRoundKey(s, other, round)
  {
    forall i: nat | i < 16 ensures B.AddRoundKey(s, keys, round)[i] == B.AddRoundKey(s, other, round)[i] {
      assert keys[..160][16 * round + i] == other[..160][16 * round + i];
    }
  }

  // The last round key comes last.
  lemma {:induction false} UpDepends(s: B.Block, keys: B.RoundKeys, other: B.RoundKeys, n: nat)
    requires keys[..160] == other[..160] && n < B.ROUNDS
    ensures B.Up(s, keys, n) == B.Up(s, other, n)
  {
    if n == 0 {
      SameRoundKey(s, keys, other, 0);
    } else {
      UpDepends(s, keys, other, n - 1);
      SameRoundKey(B.MixColumns(B.ShiftRows(B.SubBytes(B.Up(s, keys, n - 1)))), keys, other, n);
    }
  }

  // Other round keys, that change the first byte of every block and no other.
  function Flipped(keys: B.RoundKeys): B.RoundKeys {
    keys[160 := keys[160] ^ 1]
  }

  lemma FlippedCipher(s: B.Block, keys: B.RoundKeys, r: nat)
    requires r < 16
    ensures B.Cipher(s, Flipped(keys))[r] == B.Cipher(s, keys)[r] ^ (if r == 0 then 1 else 0)
  {
    UpDepends(s, keys, Flipped(keys), B.ROUNDS - 1);
    var u := B.ShiftRows(B.SubBytes(B.Up(s, keys, B.ROUNDS - 1)));
    FlippedKey(u, keys, r);
  }

  lemma FlippedKey(u: B.Block, keys: B.RoundKeys, r: nat)
    requires r < 16
    ensures B.AddRoundKey(u, Flipped(keys), B.ROUNDS)[r]
         == B.AddRoundKey(u, keys, B.ROUNDS)[r] ^ (if r == 0 then 1 else 0)
  {
  }

  lemma NotBoth(x: bv8, y: bv8)
    ensures x != y || x != y ^ 1
  {
  }

  // Of two sets of round keys, one does not allow the split.
  lemma SplitFails(keys: B.RoundKeys, iv: B.Block, s: seq<bv8>, t: seq<bv8>)
    requires !Whole(s) && t != []
    ensures !CtrSplits(Encryption(keys), iv, s, t) || !CtrSplits(Encryption(Flipped(keys)), iv, s, t)
  {
    var a, b, r := Counter(iv, |s| / 16), Counter(iv, |s| / 16 + 1), |s| % 16;
    FlippedCipher(a, keys, r);
    FlippedCipher(b, keys, 0);
    NotBoth(B.Cipher(a, keys)[r], B.Cipher(b, keys)[0]);
    if CtrSplits(Encryption(keys), iv, s, t) {
      CtrSplitInside(Encryption(keys), iv, s, t);
    }
    if CtrSplits(Encryption(Flipped(keys)), iv, s, t) {
      CtrSplitInside(Encryption(Flipped(keys)), iv, s, t);
    }
  }

  // A buffer may be given to AES counter mode in two parts, whatever the round keys, if and only if the
  // first is whole blocks or the second is empty.
  lemma AesCtrSplitsExactly(iv: B.Block, s: seq<bv8>, t: seq<bv8>)
    ensures (forall keys :: CtrSplits(Encryption(keys), iv, s, t)) <==> Whole(s) || t == []
  {
    if Whole(s) || t == [] {
      forall keys ensures CtrSplits(Encryption(keys), iv, s, t) {
        CtrSplitsAtBlocks(Encryption(keys), iv, s, t);
      }
    } else {
      var keys: B.RoundKeys := seq(176, _ => 0);
      SplitFails(keys, iv, s, t);
    }
  }

  // The block from which the cipher makes a given one.
  lemma Preimage(keys: B.RoundKeys, c: B.Block) returns (iv: B.Block)
    ensures Encryption(keys)(iv) == c
  {
    iv := B.InvCipher(c, keys);
    B.CipherUndoesInvCipher(c, keys);
  }

  lemma SplitInFirstBlock(keys: B.RoundKeys, iv: B.Block, s: seq<bv8>, t: seq<bv8>)
    requires 0 < |s| < 16 && t != [] && CtrSplits(Encryption(keys), iv, s, t)
    ensures Encryption(keys)(iv)[|s|] == Encryption(keys)(Counter(iv, 1))[0]
  {
    assert |s| / 16 == 0 && |s| % 16 == |s| && Counter(iv, 0) == iv;
    CtrSplitInside(Encryption(keys), iv, s, t);
  }

  // No key is spared: for any round keys, and so for those of any key, and any two cuts inside a block there
  // is a vector for which one of them changes the result.
  lemma EveryKeySplitsWrong(keys: B.RoundKeys, s: seq<bv8>, s': seq<bv8>, t: seq<bv8>) returns (iv: B.Block)
    requires 0 < |s| < |s'| < 16 && t != []
    ensures !CtrSplits(Encryption(keys), iv, s, t) || !CtrSplits(Encryption(keys), iv, s', t)
  {
    var c: B.Block := seq(16, i => if i == |s| then 1 else 0);
    assert c[|s|] != c[|s'|];
    iv := Preimage(keys, c);
    if CtrSplits(Encryption(keys), iv, s, t) {
      SplitInFirstBlock(keys, iv, s, t);
    }
    if CtrSplits(Encryption(keys), iv, s', t) {
      SplitInFirstBlock(keys, iv, s', t);
    }
  }

  // ---------- The loops, one block at a time ----------

  lemma NextBlockFits(i: nat, length: nat)
    requires i % 16 == 0 && length % 16 == 0 && i < length
    ensures i + 16 <= length
  {
  }

  // now is was with its first i bytes encrypted, and last is the vector for the next block.
  ghost predicate EncryptedTo(e: BlockFunction, iv: B.Block, was: seq<bv8>, now: seq<bv8>, i: nat, last: B.Block) {
    && |now| == |was| && i <= |was| && i % 16 == 0
    && now[..i] == CbcEncrypt(e, iv, was[..i])
    && now[i..] == was[i..]
    && last == LastBlock(iv, now[..i])
  }

  lemma EncryptStep(e: BlockFunction, iv: B.Block, was: seq<bv8>, now: seq<bv8>, i: nat, last: B.Block, next: seq<bv8>)
    requires EncryptedTo(e, iv, was, now, i, last) && i + 16 <= |was| == |next|
    requires next[i..i + 16] == e(Xor(now[i..i + 16], last)) && A.SameOutside(next, now, i)
    ensures EncryptedTo(e, iv, was, next, i + 16, next[i..i + 16])
  {
    var block: B.Block := was[i..i + 16];
    assert now[i..i + 16] == block;
    CbcEncryptAppend(e, iv, was[..i], block);
    assert was[..i + 16] == was[..i] + block;
    assert next[..i + 16] == now[..i] + next[i..i + 16];
  }

  // now is was with its first i bytes decrypted, and last is the vector for the next block.
  ghost predicate DecryptedTo(d: BlockFunction, iv: B.Block, was: seq<bv8>, now: seq<bv8>, i: nat, last: B.Block) {
    && |now| == |was| && i <= |was| && i % 16 == 0
    && now[..i] == CbcDecrypt(d, iv, was[..i])
    && now[i..] == was[i..]
    && last == LastBlock(iv, was[..i])
  }

  lemma DecryptStep(d: BlockFunction, iv: B.Block, was: seq<bv8>, now: seq<bv8>, i: nat, last: B.Block, next: seq<bv8>)
    requires DecryptedTo(d, iv, was, now, i, last) && i + 16 <= |was| == |next|
    requires next[i..i + 16] == Xor(d(now[i..i + 16]), last) && A.SameOutside(next, now, i)
    ensures DecryptedTo(d, iv, was, next, i + 16, now[i..i + 16])
  {
    var block: B.Block := was[i..i + 16];
    assert now[i..i + 16] == block;
    CbcDecryptAppend(d, iv, was[..i], block);
    assert was[..i + 16] == was[..i] + block;
    assert next[..i + 16] == now[..i] + next[i..i + 16];
  }

  // now is was with its first i bytes combined with the key stream.
  ghost predicate CombinedTo(e: BlockFunction, iv: B.Block, was: seq<bv8>, now: seq<bv8>, i: nat) {
    |now| == |was| && i <= |was| && now[..i] == CtrXor(e, iv, was[..i]) && now[i..] == was[i..]
  }

  lemma CtrAppend(e: BlockFunction, iv: B.Block, s: seq<bv8>, b: bv8)
    ensures CtrXor(e, iv, s + [b]) == CtrXor(e, iv, s) + [b ^ Stream(e, iv, |s|)]
  {
    var x, y := CtrXor(e, iv, s + [b]), CtrXor(e, iv, s);
    assert forall k :: 0 <= k < |s| ==> x[k] == y[k];
    assert x[|s|] == b ^ Stream(e, iv, |s|);
  }

  lemma CombineStep(e: BlockFunction, iv: B.Block, was: seq<bv8>, now: seq<bv8>, i: nat)
    requires CombinedTo(e, iv, was, now, i) && i < |was|
    ensures CombinedTo(e, iv, was, now[i := now[i] ^ Stream(e, iv, i)], i + 1)
  {
    CtrAppend(e, iv, was[..i], was[i]);
    assert now[i] == now[i..][0] && was[i] == was[i..][0];
    assert was[..i + 1] == was[..i] + [was[i]];
    var next := now[i := now[i] ^ Stream(e, iv, i)];
    assert next[..i + 1] == now[..i] + [next[i]];
    assert next[i + 1..] == now[i..][1..] && was[i + 1..] == was[i..][1..];
  }

  // The key-stream block in use at byte i, and the counter that comes after it.
  ghost predicate StreamState(e: BlockFunction, iv: B.Block, buffer: B.Block, counter: B.Block, i: nat, bi: nat) {
    && bi == (if i % 16 == 0 then 16 else i % 16)
    && counter == Counter(iv, BlocksIn(i))
    && (i % 16 != 0 ==> buffer == e(Counter(iv, i / 16)))
  }

  // The same, once the block for byte i is there.
  ghost predicate StreamReady(e: BlockFunction, iv: B.Block, buffer: B.Block, counter: B.Block, i: nat, bi: nat) {
    bi == i % 16 && counter == Counter(iv, BlocksIn(i + 1)) && buffer == e(Counter(iv, i / 16))
  }

  lemma StreamRefilled(e: BlockFunction, iv: B.Block, buffer: B.Block, counter: B.Block, i: nat)
    requires StreamState(e, iv, buffer, counter, i, 16)
    ensures StreamReady(e, iv, e(counter), Increment(counter), i, 0)
  {
    assert i % 16 == 0 && BlocksIn(i) == i / 16 && BlocksIn(i + 1) == BlocksIn(i) + 1;
  }

  lemma StreamContinues(e: BlockFunction, iv: B.Block, buffer: B.Block, counter: B.Block, i: nat, bi: nat)
    requires StreamState(e, iv, buffer, counter, i, bi) && bi != 16
    ensures StreamReady(e, iv, buffer, counter, i, bi)
  {
    assert i % 16 != 0 && BlocksIn(i) == BlocksIn(i + 1);
  }

  lemma StreamMoves(e: BlockFunction, iv: B.Block, buffer: B.Block, counter: B.Block, i: nat, bi: nat)
    requires StreamReady(e, iv, buffer, counter, i, bi)
    ensures buffer[bi] == Stream(e, iv, i)
    ensures StreamState(e, iv, buffer, counter, i + 1, bi + 1)
  {
    assert (i + 1) % 16 != 0 ==> (i + 1) / 16 == i / 16 && (i + 1) % 16 == i % 16 + 1;
  }

  // Bytes after k were all 255: they carry.
  lemma CarryStep(s: seq<bv8>, k: nat)
    requires k < |s| && s[k] == 255
    ensures Increment(s[..k + 1]) == Increment(s[..k]) + [0]
  {
    assert s[..k + 1][..k] == s[..k];
  }

  lemma CarryStops(s: seq<bv8>, k: nat)
    requires k < |s| && s[k] != 255
    ensures Increment(s[..k + 1]) == s[..k] + [s[k] + 1]
  {
    assert s[..k + 1][..k] == s[..k];
  }

  class Context {
    const roundKey: array<bv8>
    const iv: array<bv8>

    ghost predicate Valid() {
      roundKey.Length == 176 && iv.Length == 16 && roundKey != iv
    }

    constructor (key: K.Key, vector: B.Block)
      ensures Valid() && fresh(roundKey) && fresh(iv)
      ensures K.IsSchedule(roundKey[..], key, 44) && iv[..] == vector
    {
      roundKey := new bv8[176];
      iv := new bv8[16](i requires 0 <= i < 16 => vector[i]);
      new;
      K.KeyExpansion(roundKey, key);
      assert iv[..] == vector;
    }

    method SetIv(vector: B.Block)
      requires Valid()
      modifies iv
      ensures iv[..] == vector
    {
      for i := 0 to 16
        invariant iv[..i] == vector[..i]
      {
        iv[i] := vector[i];
      }
    }

    // buf[p..p + 16] ^= vec[q..q + 16]
    static method XorWithIv(buf: array<bv8>, p: nat, vec: array<bv8>, q: nat)
      requires p + 16 <= buf.Length && q + 16 <= vec.Length
      requires buf != vec || q + 16 <= p
      modifies buf
      ensures buf[p..p + 16] == Xor(old(buf[p..p + 16]), old(vec[q..q + 16]))
      ensures A.SameOutside(buf[..], old(buf[..]), p)
    {
      ghost var x, y := buf[p..p + 16], vec[q..q + 16];
      for i := 0 to 16
        invariant buf[p..p + i] == Xor(x, y)[..i]
        invariant buf[p + i..p + 16] == x[i..]
        invariant A.SameOutside(buf[..], old(buf[..]), p)
        invariant vec[q..q + 16] == y
      {
        assert buf[p + i] == x[i] && vec[q + i] == y[i];
        buf[p + i] := buf[p + i] ^ vec[q + i];
      }
    }

    // The body of the encryption loop.
    method CbcEncryptBlock(buf: array<bv8>, p: nat, vec: array<bv8>, q: nat)
      requires Valid() && buf != roundKey && p + 16 <= buf.Length && q + 16 <= vec.Length
      requires buf != vec || q + 16 <= p
      modifies buf
      ensures buf[p..p + 16] == Encryption(roundKey[..])(Xor(old(buf[p..p + 16]), old(vec[q..q + 16])))
      ensures A.SameOutside(buf[..], old(buf[..]), p)
    {
      XorWithIv(buf, p, vec, q);
      A.Cipher(buf, p, roundKey);
    }

    method CbcEncryptBuffer(buf: array<bv8>, length: nat)
      requires Valid() && buf != roundKey && buf != iv && length <= buf.Length && length % 16 == 0
      modifies buf, iv
      ensures buf[..length] == CbcEncrypt(Encryption(roundKey[..]), old(iv[..]), old(buf[..length]))
      ensures buf[length..] == old(buf[length..])
      ensures iv[..] == LastBlock(old(iv[..]), buf[..length])
    {
      ghost var was, vector: B.Block, e := buf[..], iv[..], Encryption(roundKey[..]);
      // The vector is first the context's, then the block just written.
      var vec, q := iv, 0;
      var i := 0;
      while i < length
        invariant 0 <= i <= length
        invariant if i == 0 then vec == iv && q == 0 else vec == buf && q == i - 16
        invariant EncryptedTo(e, vector, was, buf[..], i, vec[q..q + 16])
        invariant iv[..] == vector && roundKey[..] == old(roundKey[..])
      {
        ghost var now, last := buf[..], vec[q..q + 16];
        NextBlockFits(i, length);
        CbcEncryptBlock(buf, i, vec, q);
        EncryptStep(e, vector, was, now, i, last, buf[..]);
        vec, q := buf, i;
        i := i + 16;
      }
      CopyBlock(iv, 0, vec, q);
    }

    static method CopyBlock(to: array<bv8>, p: nat, from: array<bv8>, q: nat)
      requires p + 16 <= to.Length && q + 16 <= from.Length && (to != from || p == q)
      modifies to
      ensures to[p..p + 16] == old(from[q..q + 16])
      ensures A.SameOutside(to[..], old(to[..]), p)
    {
      ghost var y := from[q..q + 16];
      for i := 0 to 16
        invariant to[p..p + i] == y[..i]
        invariant A.SameOutside(to[..], old(to[..]), p)
        invariant from[q..q + 16] == y
      {
        assert from[q + i] == y[i];
        to[p + i] := from[q + i];
      }
    }

    // The body of the decryption loop.
    method CbcDecryptBlock(buf: array<bv8>, p: nat, storeNextIv: array<bv8>)
      requires Valid() && buf != roundKey && buf != iv && p + 16 <= buf.Length
      requires storeNextIv.Length == 16 && storeNextIv != roundKey && storeNextIv != iv && storeNextIv != buf
      modifies buf, iv, storeNextIv
      ensures buf[p..p + 16] == Xor(Decryption(roundKey[..])(old(buf[p..p + 16])), old(iv[..]))
      ensures iv[..] == old(buf[p..p + 16])
      ensures A.SameOutside(buf[..], old(buf[..]), p)
    {
      CopyBlock(storeNextIv, 0, buf, p);
      A.InvCipher(buf, p, roundKey);
      XorWithIv(buf, p, iv, 0);
      CopyBlock(iv, 0, storeNextIv, 0);
    }

    method CbcDecryptBuffer(buf: array<bv8>, length: nat)
      requires Valid() && buf != roundKey && buf != iv && length <= buf.Length && length % 16 == 0
      modifies buf, iv
      ensures buf[..length] == CbcDecrypt(Decryption(roundKey[..]), old(iv[..]), old(buf[..length]))
      ensures buf[length..] == old(buf[length..])
      ensures iv[..] == LastBlock(old(iv[..]), old(buf[..length]))
    {
      ghost var was, vector: B.Block, d := buf[..], iv[..], Decryption(roundKey[..]);
      var storeNextIv := new bv8[16];
      var i := 0;
      while i < length
        invariant 0 <= i <= length
        invariant DecryptedTo(d, vector, was, buf[..], i, iv[..])
        invariant roundKey[..] == old(roundKey[..])
      {
        ghost var now, last := buf[..], iv[..];
        NextBlockFits(i, length);
        CbcDecryptBlock(buf, i, storeNextIv);
        DecryptStep(d, vector, was, now, i, last, buf[..]);
        i := i + 16;
      }
    }

    // The carry loop of the counter.
    method IncrementIv()
      requires Valid()
      modifies iv
      ensures iv[..] == Increment(old(iv[..]))
    {
      ghost var was := iv[..];
      assert was[..16] == was;
      var bi := 15;
      while bi >= 0
        invariant -1 <= bi <= 15
        invariant iv[..bi + 1] == was[..bi + 1]
        invariant Increment(was) == Increment(was[..bi + 1]) + iv[bi + 1..]
      {
        if iv[bi] == 255 {
          iv[bi] := 0;
          CarryStep(was, bi);
          bi := bi - 1;
          continue;
        }
        iv[bi] := iv[bi] + 1;
        CarryStops(was, bi);
        break;
      }
      assert iv[..] == Increment(was);
    }

    // A block of key stream from the counter, which then moves on.
    method NextStreamBlock(buffer: array<bv8>)
      requires Valid() && buffer.Length == 16 && buffer != roundKey && buffer != iv
      modifies buffer, iv
      ensures buffer[..] == Encryption(roundKey[..])(old(iv[..]))
      ensures iv[..] == Increment(old(iv[..]))
    {
      CopyBlock(buffer, 0, iv, 0);
      assert buffer[..] == buffer[0..16] && iv[..] == iv[0..16];
      A.Cipher(buffer, 0, roundKey);
      IncrementIv();
      assert buffer[..] == buffer[0..16];
    }

    method CtrXcryptBuffer(buf: array<bv8>, length: nat)
      requires Valid() && buf != roundKey && buf != iv && length <= buf.Length
      modifies buf, iv
      ensures buf[..length] == CtrXor(Encryption(roundKey[..]), old(iv[..]), old(buf[..length]))
      ensures buf[length..] == old(buf[length..])
      ensures iv[..] == Counter(old(iv[..]), BlocksIn(length))
    {
      ghost var was, vector: B.Block, e := buf[..], iv[..], Encryption(roundKey[..]);
      var buffer := new bv8[16];
      var i, bi := 0, 16;
      while i < length
        invariant 0 <= i <= length
        invariant StreamState(e, vector, buffer[..], iv[..], i, bi)
        invariant CombinedTo(e, vector, was, buf[..], i)
        invariant roundKey[..] == old(roundKey[..])
      {
        ghost var block, counter := buffer[..], iv[..];
        if bi == 16 {
          NextStreamBlock(buffer);
          bi := 0;
          StreamRefilled(e, vector, block, counter, i);
        } else {
          StreamContinues(e, vector, block, counter, i, bi);
        }
        StreamMoves(e, vector, buffer[..], iv[..], i, bi);
        CombineStep(e, vector, was, buf[..], i);
        assert buffer[bi] == buffer[..][bi];
        buf[i] := buf[i] ^ buffer[bi];
        i, bi := i + 1, bi + 1;
      }
    }
  }

  // Two contexts for one key and one vector: what one encrypts the other decrypts, and they end with the
  // same vector.
  method CbcThereAndBack(key: K.Key, vector: B.Block, buf: array<bv8>, length: nat) returns (a: Context, b: Context)
    requires length <= buf.Length && length % 16 == 0
    modifies buf
    ensures buf[..] == old(buf[..]) && a.iv[..] == b.iv[..]
  {
    a := new Context(key, vector);
    b := new Context(key, vector);
    K.ScheduleUnique(key, a.roundKey[..], b.roundKey[..]);
    ghost var text := buf[..length];
    AesCbcRoundTrip(a.roundKey[..], vector, text);
    a.CbcEncryptBuffer(buf, length);
    b.CbcDecryptBuffer(buf, length);
    assert buf[..] == buf[..length] + buf[length..];
    assert old(buf[..]) == text + old(buf[length..]);
  }

  // The same operation encrypts and decrypts.
  method CtrThereAndBack(key: K.Key, vector: B.Block, buf: array<bv8>, length: nat) returns (a: Context, b: Context)
    requires length <= buf.Length
    modifies buf
    ensures buf[..] == old(buf[..]) && a.iv[..] == b.iv[..]
  {
    a := new Context(key, vector);
    b := new Context(key, vector);
    K.ScheduleUnique(key, a.roundKey[..], b.roundKey[..]);
    ghost var text := buf[..length];
    CtrTwiceIsIdentity(Encryption(a.roundKey[..]), vector, text);
    a.CtrXcryptBuffer(buf, length);
    b.CtrXcryptBuffer(buf, length);
    assert buf[..] == buf[..length] + buf[length..];
    assert old(buf[..]) == text + old(buf[length..]);
  }
}
