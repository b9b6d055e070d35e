/**
 * AES-128 on one block (FIPS 197, sections 5.1 and 5.3), as functions on the sixteen bytes of the
 * state in memory order: byte 4 * c + r is row r of column c, the source's state[c][r].
 *
 * The main result is that `InvCipher` undoes `Cipher`, and the other way round, for any 176 bytes of
 * round keys at all: nothing is asked of how they were expanded.
 */
module AesBlock {
  import opened AesColumns
  import opened AesSbox

  const ROUNDS: nat := 10

  type Block = s: seq<bv8> | |s| == 16 witness seq(16, _ => 0)
  type RoundKeys = k: seq<bv8> | |k| == 176 witness seq(176, _ => 0)

  // ---------- The four transformations ----------

  function MapBytes(f: bv8 -> bv8, s: Block): Block {
    seq(16, i requires 0 <= i < 16 => f(s[i]))
  }

  function SubBytes(s: Block): Block {
    MapBytes(Sbox, s)
  }

  function InvSubBytes(s: Block): Block {
    MapBytes(InvSbox, s)
  }

  // Row r moves r columns to the left.
  function ShiftRows(s: Block): Block {
    seq(16, i requires 0 <= i < 16 => s[4 * ((i / 4 + i % 4) % 4) + i % 4])
  }

  function InvShiftRows(s: Block): Block {
    seq(16, i requires 0 <= i < 16 => s[4 * ((i / 4 + 4 - i % 4) % 4) + i % 4])
  }

  function ColumnOf(s: Block, c: nat): Column
    requires c < 4
  {
    Column(s[4 * c], s[4 * c + 1], s[4 * c + 2], s[4 * c + 3])
  }

  function ByteOf(k: Column, r: nat): bv8
    requires r < 4
  {
    if r == 0 then k.a else if r == 1 then k.b else if r == 2 then k.c else k.d
  }

  function MapColumns(f: Column -> Column, s: Block): Block {
    seq(16, i requires 0 <= i < 16 => ByteOf(f(ColumnOf(s, i / 4)), i % 4))
  }

  function MixColumns(s: Block): Block {
    MapColumns(Mix, s)
  }

  function InvMixColumns(s: Block): Block {
    MapColumns(InvMix, s)
  }

  function AddRoundKey(s: Block, keys: RoundKeys, round: nat): Block
    requires round <= ROUNDS
  {
    seq(16, i requires 0 <= i < 16 => s[i] ^ keys[16 * round + i])
  }

  // ---------- The ciphers ----------

  // The state after the opening key and n middle rounds.
  function Up(s: Block, keys: RoundKeys, n: nat): Block
    requires n < ROUNDS
  {
    if n == 0 then AddRoundKey(s, keys, 0)
    else AddRoundKey(MixColumns(ShiftRows(SubBytes(Up(s, keys, n - 1)))), keys, n)
  }

  function Cipher(s: Block, keys: RoundKeys): Block {
    AddRoundKey(ShiftRows(SubBytes(Up(s, keys, ROUNDS - 1))), keys, ROUNDS)
  }

  // The state of the inverse cipher when n middle rounds are left.
  function Down(s: Block, keys: RoundKeys, n: nat): Block
    requires n < ROUNDS
    decreases ROUNDS - n
  {
    if n == ROUNDS - 1 then AddRoundKey(s, keys, ROUNDS)
    else InvMixColumns(AddRoundKey(InvSubBytes(InvShiftRows(Down(s, keys, n + 1))), keys, n + 1))
  }

  function InvCipher(s: Block, keys: RoundKeys): Block {
    AddRoundKey(InvSubBytes(InvShiftRows(Down(s, keys, 0))), keys, 0)
  }

  // ---------- Each transformation is undone ----------

  lemma MapBytesUndone(f: bv8 -> bv8, g: bv8 -> bv8, s: Block)
    requires forall v :: g(f(v)) == v
    ensures MapBytes(g, MapBytes(f, s)) == s
  {
    forall i: nat | i < 16
      ensures MapBytes(g, MapBytes(f, s))[i] == s[i]
    {
      assert g(f(s[i])) == s[i];
    }
  }

  lemma SubBytesUndone(s: Block)
    ensures InvSubBytes(SubBytes(s)) == s
    ensures SubBytes(InvSubBytes(s)) == s
  {
    forall v ensures InvSbox(Sbox(v)) == v { InvSboxUndoesSbox(v); }
    forall v ensures Sbox(InvSbox(v)) == v { SboxUndoesInvSbox(v); }
    MapBytesUndone(Sbox, InvSbox, s);
    MapBytesUndone(InvSbox, Sbox, s);
  }

  lemma ShiftRowsListed(s: Block)
    ensures ShiftRows(s) == [s[0], s[5], s[10], s[15], s[4], s[9], s[14], s[3],
                             s[8], s[13], s[2], s[7], s[12], s[1], s[6], s[11]]
  {
  }

  lemma InvShiftRowsListed(s: Block)
    ensures InvShiftRows(s) == [s[0], s[13], s[10], s[7], s[4], s[1], s[14], s[11],
                                s[8], s[5], s[2], s[15], s[12], s[9], s[6], s[3]]
  {
  }

  lemma ShiftRowsUndone(s: Block)
    ensures InvShiftRows(ShiftRows(s)) == s
    ensures ShiftRows(InvShiftRows(s)) == s
  {
    ShiftRowsListed(s);
    InvShiftRowsListed(ShiftRows(s));
    InvShiftRowsListed(s);
    ShiftRowsListed(InvShiftRows(s));
  }

  lemma MapColumnsAt(f: Column -> Column, s: Block, c: nat)
    requires c < 4
    ensures ColumnOf(MapColumns(f, s), c) == f(ColumnOf(s, c))
  {
  }

  lemma MapColumnsUndone(f: Column -> Column, g: Column -> Column, s: Block)
    requires forall k :: g(f(k)) == k
    ensures MapColumns(g, MapColumns(f, s)) == s
  {
    forall i: nat | i < 16
      ensures MapColumns(g, MapColumns(f, s))[i] == s[i]
    {
      MapColumnsAt(f, s, i / 4);
    }
  }

  lemma MixColumnsUndone(s: Block)
    ensures InvMixColumns(MixColumns(s)) == s
    ensures MixColumns(InvMixColumns(s)) == s
  {
    forall k ensures InvMix(Mix(k)) == k && Mix(InvMix(k)) == k { MixAndInvMixAreInverse(k); }
    MapColumnsUndone(Mix, InvMix, s);
    MapColumnsUndone(InvMix, Mix, s);
  }

  lemma AddRoundKeyUndone(s: Block, keys: RoundKeys, round: nat)
    requires round <= ROUNDS
    ensures AddRoundKey(AddRoundKey(s, keys, round), keys, round) == s
  {
  }

  // ---------- The inverse cipher retraces the cipher ----------

  lemma RoundUndone(t: Block, keys: RoundKeys, n: nat)
    requires n < ROUNDS
    ensures InvMixColumns(AddRoundKey(InvSubBytes(InvShiftRows(
              ShiftRows(SubBytes(AddRoundKey(MixColumns(t), keys, n))))), keys, n)) == t
  {
    ShiftRowsUndone(SubBytes(AddRoundKey(MixColumns(t), keys, n)));
    SubBytesUndone(AddRoundKey(MixColumns(t), keys, n));
    AddRoundKeyUndone(MixColumns(t), keys, n);
    MixColumnsUndone(t);
  }

  lemma {:induction false} DownRetracesUp(s: Block, keys: RoundKeys, n: nat)
    requires n < ROUNDS
    ensures Down(Cipher(s, keys), keys, n) == ShiftRows(SubBytes(Up(s, keys, n)))
    decreases ROUNDS - n
  {
    if n == ROUNDS - 1 {
      AddRoundKeyUndone(ShiftRows(SubBytes(Up(s, keys, ROUNDS - 1))), keys, ROUNDS);
    } else {
      DownRetracesUp(s, keys, n + 1);
      RoundUndone(ShiftRows(SubBytes(Up(s, keys, n))), keys, n + 1);
    }
  }

  lemma InvCipherUndoesCipher(s: Block, keys: RoundKeys)
    ensures InvCipher(Cipher(s, keys), keys) == s
  {
    DownRetracesUp(s, keys, 0);
    var t := AddRoundKey(s, keys, 0);
    ShiftRowsUndone(SubBytes(t));
    SubBytesUndone(t);
    AddRoundKeyUndone(s, keys, 0);
  }

  lemma RoundRedone(t: Block, keys: RoundKeys, n: nat)
    requires n < ROUNDS
    ensures AddRoundKey(MixColumns(ShiftRows(SubBytes(
              InvSubBytes(InvShiftRows(InvMixColumns(AddRoundKey(t, keys, n))))))), keys, n) == t
  {
    var u := InvMixColumns(AddRoundKey(t, keys, n));
    SubBytesUndone(InvShiftRows(u));
    ShiftRowsUndone(u);
    MixColumnsUndone(AddRoundKey(t, keys, n));
    AddRoundKeyUndone(t, keys, n);
  }

  lemma {:induction false} UpRetracesDown(s: Block, keys: RoundKeys, n: nat)
    requires n < ROUNDS
    ensures Up(InvCipher(s, keys), keys, n) == InvSubBytes(InvShiftRows(Down(s, keys, n)))
  {
    if n == 0 {
      AddRoundKeyUndone(InvSubBytes(InvShiftRows(Down(s, keys, 0))), keys, 0);
    } else {
      UpRetracesDown(s, keys, n - 1);
      RoundRedone(InvSubBytes(InvShiftRows(Down(s, keys, n))), keys, n);
    }
  }

  lemma CipherUndoesInvCipher(s: Block, keys: RoundKeys)
    ensures Cipher(InvCipher(s, keys), keys) == s
  {
    UpRetracesDown(s, keys, ROUNDS - 1);
    var t := AddRoundKey(s, keys, ROUNDS);
    SubBytesUndone(InvShiftRows(t));
    ShiftRowsUndone(t);
    AddRoundKeyUndone(s, keys, ROUNDS);
  }
}
