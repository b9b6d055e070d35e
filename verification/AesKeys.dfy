/**
 * The AES-128 key schedule (FIPS 197, section 5.2) and the source's KeyExpansion.
 */
module AesKeys {
  import opened GaloisField
  import opened AesColumns
  import opened AesSbox
  import B = AesBlock

  type Key = k: seq<bv8> | |k| == 16 witness seq(16, _ => 0)

  // The source's table; entry 0 is not used.
  function Rcon(i: nat): bv8
    requires i < 11
  {
    [0x8d, 0x01, 0x02, 0x04, 0x08, 0x10, 0x20, 0x40, 0x80, 0x1b, 0x36][i]
  }

  // Entry i is x to the power i - 1.
  lemma RconDoubles(i: nat)
    requires i < 10
    ensures Rcon(1) == 1 && Rcon(i + 1) == XTime(Rcon(i))
  {
  }

  // ---------- Words ----------

  function WordAt(s: seq<bv8>, i: nat): Column
    requires 4 * i + 4 <= |s|
  {
    Column(s[4 * i], s[4 * i + 1], s[4 * i + 2], s[4 * i + 3])
  }

  function AddWords(u: Column, v: Column): Column {
    Column(u.a ^ v.a, u.b ^ v.b, u.c ^ v.c, u.d ^ v.d)
  }

  function RotWord(w: Column): Column {
    Column(w.b, w.c, w.d, w.a)
  }

  function SubWord(w: Column): Column {
    Column(Sbox(w.a), Sbox(w.b), Sbox(w.c), Sbox(w.d))
  }

  // What is added to word i - 4 to give word i, from word i - 1.
  function Temp(w: Column, i: nat): Column
    requires 4 <= i < 44
  {
    if i % 4 == 0 then
      var t := SubWord(RotWord(w));
      t.(a := t.a ^ Rcon(i / 4))
    else w
  }

  function Word(key: Key, i: nat): Column
    requires i < 44
  {
    if i < 4 then WordAt(key, i)
    else AddWords(Word(key, i - 4), Temp(Word(key, i - 1), i))
  }

  ghost predicate IsSchedule(keys: B.RoundKeys, key: Key, n: nat)
    requires n <= 44
  {
    forall i: nat :: i < n ==> WordAt(keys, i) == Word(key, i)
  }

  // ---------- The schedule byte by byte ----------

  // FIPS 197, section 5.2, on the 176 bytes by their indices: word i is the word four before it and the word
  // just before it, which at the multiples of four is turned by one byte, sent through the S-box, and has a
  // power of x in its first byte.
  predicate TurnedRule(keys: B.RoundKeys, i: nat)
    requires 4 <= i < 44
  {
    && keys[4 * i] == keys[4 * i - 16] ^ (Sbox(keys[4 * i - 3]) ^ Rcon(i / 4))
    && keys[4 * i + 1] == keys[4 * i - 15] ^ Sbox(keys[4 * i - 2])
    && keys[4 * i + 2] == keys[4 * i - 14] ^ Sbox(keys[4 * i - 1])
    && keys[4 * i + 3] == keys[4 * i - 13] ^ Sbox(keys[4 * i - 4])
  }

  predicate PlainRule(keys: B.RoundKeys, i: nat)
    requires 4 <= i < 44
  {
    && keys[4 * i] == keys[4 * i - 16] ^ keys[4 * i - 4]
    && keys[4 * i + 1] == keys[4 * i - 15] ^ keys[4 * i - 3]
    && keys[4 * i + 2] == keys[4 * i - 14] ^ keys[4 * i - 2]
    && keys[4 * i + 3] == keys[4 * i - 13] ^ keys[4 * i - 1]
  }

  predicate ByRule(keys: B.RoundKeys, i: nat)
    requires 4 <= i < 44
  {
    if i % 4 == 0 then TurnedRule(keys, i) else PlainRule(keys, i)
  }

  ghost predicate FollowsFips(keys: B.RoundKeys, key: Key) {
    && (forall k: nat :: k < 16 ==> keys[k] == key[k])
    && (forall i: nat :: 4 <= i < 44 ==> ByRule(keys, i))
  }

  lemma WordOfSchedule(keys: B.RoundKeys, key: Key, i: nat) returns (t: Column)
    requires IsSchedule(keys, key, 44) && 4 <= i < 44
    ensures t == Temp(WordAt(keys, i - 1), i) && WordAt(keys, i) == AddWords(WordAt(keys, i - 4), t)
  {
    assert WordAt(keys, i) == Word(key, i) && WordAt(keys, i - 1) == Word(key, i - 1) && WordAt(keys, i - 4) == Word(key, i - 4);
    t := Temp(WordAt(keys, i - 1), i);
  }

  lemma AddedBytes(keys: B.RoundKeys, i: nat, t: Column)
    requires 4 <= i < 44 && WordAt(keys, i) == AddWords(WordAt(keys, i - 4), t)
    ensures keys[4 * i] == keys[4 * i - 16] ^ t.a && keys[4 * i + 1] == keys[4 * i - 15] ^ t.b
    ensures keys[4 * i + 2] == keys[4 * i - 14] ^ t.c && keys[4 * i + 3] == keys[4 * i - 13] ^ t.d
  {
  }

  lemma TurnedBytes(w: Column, i: nat, t: Column)
    requires 4 <= i < 44 && i % 4 == 0 && t == Temp(w, i)
    ensures t.a == Sbox(w.b) ^ Rcon(i / 4) && t.b == Sbox(w.c) && t.c == Sbox(w.d) && t.d == Sbox(w.a)
  {
  }

  lemma AddedToWord(keys: B.RoundKeys, key: Key, i: nat) returns (w: Column, t: Column)
    requires IsSchedule(keys, key, 44) && 4 <= i < 44
    ensures w == Column(keys[4 * i - 4], keys[4 * i - 3], keys[4 * i - 2], keys[4 * i - 1]) && t == Temp(w, i)
    ensures keys[4 * i] == keys[4 * i - 16] ^ t.a && keys[4 * i + 1] == keys[4 * i - 15] ^ t.b
    ensures keys[4 * i + 2] == keys[4 * i - 14] ^ t.c && keys[4 * i + 3] == keys[4 * i - 13] ^ t.d
  {
    t := WordOfSchedule(keys, key, i);
    AddedBytes(keys, i, t);
    w := WordAt(keys, i - 1);
  }

  lemma PlainWord(keys: B.RoundKeys, key: Key, i: nat)
    requires IsSchedule(keys, key, 44) && 4 <= i < 44 && i % 4 != 0
    ensures PlainRule(keys, i)
  {
    var w, t := AddedToWord(keys, key, i);
  }

  lemma TurnedWord(keys: B.RoundKeys, key: Key, i: nat)
    requires IsSchedule(keys, key, 44) && 4 <= i < 44 && i % 4 == 0
    ensures TurnedRule(keys, i)
  {
    var w, t := AddedToWord(keys, key, i);
    TurnedBytes(w, i, t);
  }

  lemma KeyFirst(keys: B.RoundKeys, key: Key, k: nat)
    requires IsSchedule(keys, key, 44) && k < 16
    ensures keys[k] == key[k]
  {
    var i := k / 4;
    assert WordAt(keys, i) == WordAt(key, i);
    assert k == 4 * i || k == 4 * i + 1 || k == 4 * i + 2 || k == 4 * i + 3;
  }

  lemma ScheduleFollows(keys: B.RoundKeys, key: Key)
    requires IsSchedule(keys, key, 44)
    ensures FollowsFips(keys, key)
  {
    forall k: nat | k < 16 ensures keys[k] == key[k] {
      KeyFirst(keys, key, k);
    }
    forall i: nat | 4 <= i < 44 ensures ByRule(keys, i) {
      if i % 4 == 0 {
        TurnedWord(keys, key, i);
      } else {
        PlainWord(keys, key, i);
      }
    }
  }

  // ---------- The code ----------

  ghost predicate WordReplaced(now: B.RoundKeys, was: B.RoundKeys, i: nat, w: Column) {
    forall n: nat :: n < 44 ==> WordAt(now, n) == if n == i then w else WordAt(was, n)
  }

  method WriteWord(roundKey: array<bv8>, i: nat, w: Column)
    requires roundKey.Length == 176 && i < 44
    modifies roundKey
    ensures WordReplaced(roundKey[..], old(roundKey[..]), i, w)
  {
    var j := 4 * i;
    roundKey[j], roundKey[j + 1], roundKey[j + 2], roundKey[j + 3] := w.a, w.b, w.c, w.d;
  }

  // The source's RotWord, SubWord and Rcon steps, on its temporary of four bytes.
  method TempOf(w: Column, i: nat) returns (temp: Column)
    requires 4 <= i < 44
    ensures temp == Temp(w, i)
    ensures temp == if i % 4 == 0 then Column(Sbox(w.b) ^ Rcon(i / 4), Sbox(w.c), Sbox(w.d), Sbox(w.a)) else w
  {
    temp := w;
    if i % 4 == 0 {
      var k := temp.a;
      temp := Column(temp.b, temp.c, temp.d, k);
      temp := Column(Sbox(temp.a), Sbox(temp.b), Sbox(temp.c), Sbox(temp.d));
      temp := temp.(a := temp.a ^ Rcon(i / 4));
    }
  }

  method KeyExpansion(roundKey: array<bv8>, key: Key)
    requires roundKey.Length == 176
    modifies roundKey
    ensures IsSchedule(roundKey[..], key, 44) && FollowsFips(roundKey[..], key)
  {
    for i := 0 to 4
      invariant IsSchedule(roundKey[..], key, i)
    {
      WriteWord(roundKey, i, WordAt(key, i));
    }
    for i := 4 to 44
      invariant IsSchedule(roundKey[..], key, i)
    {
      var temp := TempOf(WordAt(roundKey[..], i - 1), i);
      WriteWord(roundKey, i, AddWords(WordAt(roundKey[..], i - 4), temp));
    }
    ScheduleFollows(roundKey[..], key);
  }

  // ---------- The schedule runs backwards too ----------

  lemma AddWordsCancels(u: Column, v: Column)
    ensures AddWords(AddWords(u, v), v) == u
  {
  }

  // Four words in a row give the word before them, so any round key gives all earlier ones.
  lemma WordBefore(key: Key, other: Key, i: nat)
    requires i < 40
    requires forall n: nat :: i < n <= i + 4 ==> Word(key, n) == Word(other, n)
    ensures Word(key, i) == Word(other, i)
  {
    assert Word(key, i + 4) == Word(other, i + 4) && Word(key, i + 3) == Word(other, i + 3);
    var t := Temp(Word(key, i + 3), i + 4);
    AddWordsCancels(Word(key, i), t);
    AddWordsCancels(Word(other, i), t);
  }

  lemma WordsAreKey(key: Key, other: Key)
    requires forall n: nat :: n < 4 ==> WordAt(key, n) == WordAt(other, n)
    ensures key == other
  {
    forall k: nat | k < 16
      ensures key[k] == other[k]
    {
      assert WordAt(key, k / 4) == WordAt(other, k / 4);
      assert k == 4 * (k / 4) + k % 4;
    }
  }

  ghost predicate AgreeFrom(key: Key, other: Key, i: nat)
    requires i <= 40
  {
    forall n: nat :: i <= n < i + 4 ==> Word(key, n) == Word(other, n)
  }

  lemma {:induction false} RoundKeyDeterminesKey(key: Key, other: Key, i: nat)
    requires i <= 40 && AgreeFrom(key, other, i)
    ensures key == other
  {
    if i == 0 {
      forall n: nat | n < 4 ensures WordAt(key, n) == WordAt(other, n) {
        assert Word(key, n) == Word(other, n);
      }
      WordsAreKey(key, other);
    } else {
      WordBefore(key, other, i - 1);
      RoundKeyDeterminesKey(key, other, i - 1);
    }
  }

  // Two keys whose schedules agree on any one round key are equal.
  lemma SchedulesDiffer(key: Key, other: Key, keys: B.RoundKeys, others: B.RoundKeys, round: nat)
    requires IsSchedule(keys, key, 44) && IsSchedule(others, other, 44)
    requires round <= B.ROUNDS && keys[16 * round..16 * round + 16] == others[16 * round..16 * round + 16]
    ensures key == other
  {
    forall n: nat | 4 * round <= n < 4 * round + 4 ensures Word(key, n) == Word(other, n) {
      assert WordAt(keys, n) == WordAt(others, n) by {
        var k, o := keys[16 * round..16 * round + 16], others[16 * round..16 * round + 16];
        var m := 4 * n - 16 * round;
        assert keys[4 * n] == k[m] && keys[4 * n + 1] == k[m + 1] && keys[4 * n + 2] == k[m + 2] && keys[4 * n + 3] == k[m + 3];
        assert others[4 * n] == o[m] && others[4 * n + 1] == o[m + 1] && others[4 * n + 2] == o[m + 2] && others[4 * n + 3] == o[m + 3];
      }
    }
    RoundKeyDeterminesKey(key, other, 4 * round);
  }

  // A key has one schedule.
  lemma ScheduleUnique(key: Key, keys: B.RoundKeys, others: B.RoundKeys)
    requires IsSchedule(keys, key, 44) && IsSchedule(others, key, 44)
    ensures keys == others
  {
    forall k: nat | k < 176 ensures keys[k] == others[k] {
      ByteOfWord(keys, others, k, k / 4);
    }
  }

  lemma ByteOfWord(keys: B.RoundKeys, others: B.RoundKeys, k: nat, i: nat)
    requires i < 44 && 4 * i <= k < 4 * i + 4 && WordAt(keys, i) == WordAt(others, i)
    ensures keys[k] == others[k]
  {
  }
}
