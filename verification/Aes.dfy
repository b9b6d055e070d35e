/**
 * The source's AES code: every transformation rewrites, in place, the sixteen bytes of a buffer that
 * start at p (the source's cast of a byte pointer to a state). Each method is proved against the
 * function of the same name in `AesBlock`; the bytes around the block are left alone.
 */
module Aes {
  import opened GaloisField
  import opened AesColumns
  import opened AesSbox
  import B = AesBlock

  ghost predicate SameOutside(now: seq<bv8>, was: seq<bv8>, p: nat)
    requires |now| == |was| && p + 16 <= |was|
  {
    now[..p] == was[..p] && now[p + 16..] == was[p + 16..]
  }

  // The loop shared by SubBytes and InvSubBytes, which differ in the table only.
  method Substitute(table: bv8 -> bv8, state: array<bv8>, p: nat)
    requires p + 16 <= state.Length
    modifies state
    ensures state[p..p + 16] == B.MapBytes(table, old(state[p..p + 16]))
    ensures SameOutside(state[..], old(state[..]), p)
  {
    for i := 0 to 4
      invariant forall q :: p <= q < p + 16 ==>
        state[q] == if (q - p) % 4 < i then table(old(state[q])) else old(state[q])
      invariant SameOutside(state[..], old(state[..]), p)
    {
      for j := 0 to 4
        invariant forall q :: p <= q < p + 16 ==>
          state[q] == if (q - p) % 4 < i || ((q - p) % 4 == i && (q - p) / 4 < j) then table(old(state[q])) else old(state[q])
        invariant SameOutside(state[..], old(state[..]), p)
      {
        var k := 4 * j + i;
        assert k % 4 == i && k / 4 == j;
        state[p + k] := table(state[p + k]);
      }
    }
  }

  method SubBytes(state: array<bv8>, p: nat)
    requires p + 16 <= state.Length
    modifies state
    ensures state[p..p + 16] == B.SubBytes(old(state[p..p + 16]))
    ensures SameOutside(state[..], old(state[..]), p)
  {
    Substitute(Sbox, state, p);
  }

  method InvSubBytes(state: array<bv8>, p: nat)
    requires p + 16 <= state.Length
    modifies state
    ensures state[p..p + 16] == B.InvSubBytes(old(state[p..p + 16]))
    ensures SameOutside(state[..], old(state[..]), p)
  {
    Substitute(InvSbox, state, p);
  }

  method AddRoundKey(round: nat, state: array<bv8>, p: nat, roundKey: array<bv8>)
    requires p + 16 <= state.Length && roundKey.Length == 176 && roundKey != state && round <= B.ROUNDS
    modifies state
    ensures state[p..p + 16] == B.AddRoundKey(old(state[p..p + 16]), roundKey[..], round)
    ensures SameOutside(state[..], old(state[..]), p)
  {
    for i := 0 to 4
      invariant forall q :: p <= q < p + 16 ==>
        state[q] == if q - p < 4 * i then old(state[q]) ^ roundKey[16 * round + q - p] else old(state[q])
      invariant SameOutside(state[..], old(state[..]), p)
    {
      for j := 0 to 4
        invariant forall q :: p <= q < p + 16 ==>
          state[q] == if q - p < 4 * i + j then old(state[q]) ^ roundKey[16 * round + q - p] else old(state[q])
        invariant SameOutside(state[..], old(state[..]), p)
      {
        var k := 4 * i + j;
        state[p + k] := state[p + k] ^ roundKey[16 * round + k];
      }
    }
  }

  function CycleCells(s: B.Block, a: nat, b: nat, c: nat, d: nat): B.Block
    requires a < 16 && b < 16 && c < 16 && d < 16
  {
    s[a := s[b]][b := s[c]][c := s[d]][d := s[a]]
  }

  function SwapCells(s: B.Block, a: nat, b: nat): B.Block
    requires a < 16 && b < 16
  {
    s[a := s[b]][b := s[a]]
  }

  // Each of the four cells takes the value of the next, through one temporary.
  method Cycle(state: array<bv8>, p: nat, a: nat, b: nat, c: nat, d: nat)
    requires p + 16 <= state.Length && a < 16 && b < 16 && c < 16 && d < 16
    requires a != b && a != c && a != d && b != c && b != d && c != d
    modifies state
    ensures state[p..p + 16] == CycleCells(old(state[p..p + 16]), a, b, c, d)
    ensures SameOutside(state[..], old(state[..]), p)
  {
    var temp := state[p + a];
    state[p + a] := state[p + b];
    state[p + b] := state[p + c];
    state[p + c] := state[p + d];
    state[p + d] := temp;
  }

  method Swap(state: array<bv8>, p: nat, a: nat, b: nat)
    requires p + 16 <= state.Length && a < 16 && b < 16 && a != b
    modifies state
    ensures state[p..p + 16] == SwapCells(old(state[p..p + 16]), a, b)
    ensures SameOutside(state[..], old(state[..]), p)
  {
    var temp := state[p + a];
    state[p + a] := state[p + b];
    state[p + b] := temp;
  }

  lemma RowsShifted(s: B.Block)
    ensures CycleCells(SwapCells(SwapCells(CycleCells(s, 1, 5, 9, 13), 2, 10), 6, 14), 3, 15, 11, 7) == B.ShiftRows(s)
  {
    B.ShiftRowsListed(s);
  }

  lemma RowsShiftedBack(s: B.Block)
    ensures CycleCells(SwapCells(SwapCells(CycleCells(s, 13, 9, 5, 1), 2, 10), 6, 14), 3, 7, 11, 15) == B.InvShiftRows(s)
  {
    B.InvShiftRowsListed(s);
  }

  method ShiftRows(state: array<bv8>, p: nat)
    requires p + 16 <= state.Length
    modifies state
    ensures state[p..p + 16] == B.ShiftRows(old(state[p..p + 16]))
    ensures SameOutside(state[..], old(state[..]), p)
  {
    RowsShifted(state[p..p + 16]);
    // Row 1 goes one column to the left, row 2 two, row 3 three.
    Cycle(state, p, 1, 5, 9, 13);
    Swap(state, p, 2, 10);
    Swap(state, p, 6, 14);
    Cycle(state, p, 3, 15, 11, 7);
  }

  method InvShiftRows(state: array<bv8>, p: nat)
    requires p + 16 <= state.Length
    modifies state
    ensures state[p..p + 16] == B.InvShiftRows(old(state[p..p + 16]))
    ensures SameOutside(state[..], old(state[..]), p)
  {
    RowsShiftedBack(state[p..p + 16]);
    // Row 1 goes one column to the right, row 2 two, row 3 three.
    Cycle(state, p, 13, 9, 5, 1);
    Swap(state, p, 2, 10);
    Swap(state, p, 6, 14);
    Cycle(state, p, 3, 7, 11, 15);
  }

  // Columns before i hold the image under f, the others are as they were.
  ghost predicate ColumnsDone(f: Column -> Column, now: B.Block, was: B.Block, i: nat)
    requires i <= 4
  {
    forall c: nat :: c < 4 ==> B.ColumnOf(now, c) == if c < i then f(B.ColumnOf(was, c)) else B.ColumnOf(was, c)
  }

  lemma AllColumnsDone(f: Column -> Column, now: B.Block, was: B.Block)
    requires ColumnsDone(f, now, was, 4)
    ensures now == B.MapColumns(f, was)
  {
    forall i: nat | i < 16
      ensures now[i] == B.MapColumns(f, was)[i]
    {
      assert B.ColumnOf(now, i / 4) == f(B.ColumnOf(was, i / 4));
      assert now[i] == B.ByteOf(B.ColumnOf(now, i / 4), i % 4);
    }
  }

  // The source's update of one column, from its four old bytes.
  method MixColumn(k: Column) returns (m: Column)
    ensures m == Mix(k)
  {
    var t := k.a;
    var sum := Add(Add(Add(k.a, k.b), k.c), k.d);
    SumRotates(k.a, k.b, k.c, k.d);
    SumRotates(k.b, k.c, k.d, k.a);
    SumRotates(k.c, k.d, k.a, k.b);
    var a, b, c, d := k.a, k.b, k.c, k.d;
    var tm := XTime(Add(a, b));
    a := Add(a, Add(tm, sum));
    tm := XTime(Add(b, c));
    b := Add(b, Add(tm, sum));
    tm := XTime(Add(c, d));
    c := Add(c, Add(tm, sum));
    tm := XTime(Add(d, t));
    d := Add(d, Add(tm, sum));
    m := Column(a, b, c, d);
  }

  function ReadColumn(state: array<bv8>, p: nat, i: nat): (k: Column)
    requires p + 16 <= state.Length && i < 4
    reads state
    ensures k == B.ColumnOf(state[p..p + 16], i)
  {
    Column(state[p + 4 * i], state[p + 4 * i + 1], state[p + 4 * i + 2], state[p + 4 * i + 3])
  }

  ghost predicate ColumnReplaced(now: B.Block, was: B.Block, i: nat, k: Column) {
    forall c: nat :: c < 4 ==> B.ColumnOf(now, c) == if c == i then k else B.ColumnOf(was, c)
  }

  method WriteColumn(state: array<bv8>, p: nat, i: nat, k: Column)
    requires p + 16 <= state.Length && i < 4
    modifies state
    ensures ColumnReplaced(state[p..p + 16], old(state[p..p + 16]), i, k)
    ensures SameOutside(state[..], old(state[..]), p)
  {
    var q := p + 4 * i;
    ghost var was := state[p..p + 16];
    state[q], state[q + 1], state[q + 2], state[q + 3] := k.a, k.b, k.c, k.d;
    assert state[p..p + 16] == was[4 * i := k.a][4 * i + 1 := k.b][4 * i + 2 := k.c][4 * i + 3 := k.d];
    ColumnWritten(was, i, k);
  }

  lemma ColumnWritten(was: B.Block, i: nat, k: Column)
    requires i < 4
    ensures ColumnReplaced(was[4 * i := k.a][4 * i + 1 := k.b][4 * i + 2 := k.c][4 * i + 3 := k.d], was, i, k)
  {
  }

  method MixColumns(state: array<bv8>, p: nat)
    requires p + 16 <= state.Length
    modifies state
    ensures state[p..p + 16] == B.MixColumns(old(state[p..p + 16]))
    ensures SameOutside(state[..], old(state[..]), p)
  {
    ghost var was := state[p..p + 16];
    for i := 0 to 4
      invariant ColumnsDone(Mix, state[p..p + 16], was, i)
      invariant SameOutside(state[..], old(state[..]), p)
    {
      var k := ReadColumn(state, p, i);
      var m := MixColumn(k);
      WriteColumn(state, p, i, m);
    }
    AllColumnsDone(Mix, state[p..p + 16], was);
  }

  method InvMixColumn(k: Column) returns (m: Column)
    ensures m == InvMix(k)
  {
    m := Column(InvMixByte(k.a, k.b, k.c, k.d), InvMixByte(k.b, k.c, k.d, k.a),
                InvMixByte(k.c, k.d, k.a, k.b), InvMixByte(k.d, k.a, k.b, k.c));
  }

  method InvMixColumns(state: array<bv8>, p: nat)
    requires p + 16 <= state.Length
    modifies state
    ensures state[p..p + 16] == B.InvMixColumns(old(state[p..p + 16]))
    ensures SameOutside(state[..], old(state[..]), p)
  {
    ghost var was := state[p..p + 16];
    for i := 0 to 4
      invariant ColumnsDone(InvMix, state[p..p + 16], was, i)
      invariant SameOutside(state[..], old(state[..]), p)
    {
      var k := ReadColumn(state, p, i);
      var m := InvMixColumn(k);
      WriteColumn(state, p, i, m);
    }
    AllColumnsDone(InvMix, state[p..p + 16], was);
  }

  // A middle round, of the cipher and of its inverse.
  method Round(round: nat, state: array<bv8>, p: nat, roundKey: array<bv8>)
    requires p + 16 <= state.Length && roundKey.Length == 176 && roundKey != state && round <= B.ROUNDS
    modifies state
    ensures state[p..p + 16]
         == B.AddRoundKey(B.MixColumns(B.ShiftRows(B.SubBytes(old(state[p..p + 16])))), roundKey[..], round)
    ensures SameOutside(state[..], old(state[..]), p)
  {
    SubBytes(state, p);
    ShiftRows(state, p);
    MixColumns(state, p);
    AddRoundKey(round, state, p, roundKey);
  }

  method InvRound(round: nat, state: array<bv8>, p: nat, roundKey: array<bv8>)
    requires p + 16 <= state.Length && roundKey.Length == 176 && roundKey != state && round <= B.ROUNDS
    modifies state
    ensures state[p..p + 16]
         == B.InvMixColumns(B.AddRoundKey(B.InvSubBytes(B.InvShiftRows(old(state[p..p + 16]))), roundKey[..], round))
    ensures SameOutside(state[..], old(state[..]), p)
  {
    InvShiftRows(state, p);
    InvSubBytes(state, p);
    AddRoundKey(round, state, p, roundKey);
    InvMixColumns(state, p);
  }

  method Cipher(state: array<bv8>, p: nat, roundKey: array<bv8>)
    requires p + 16 <= state.Length && roundKey.Length == 176 && roundKey != state
    modifies state
    ensures state[p..p + 16] == B.Cipher(old(state[p..p + 16]), roundKey[..])
    ensures SameOutside(state[..], old(state[..]), p)
  {
    ghost var was := state[p..p + 16];
    AddRoundKey(0, state, p, roundKey);
    for round := 1 to B.ROUNDS
      invariant state[p..p + 16] == B.Up(was, roundKey[..], round - 1)
      invariant SameOutside(state[..], old(state[..]), p)
    {
      Round(round, state, p, roundKey);
    }
    SubBytes(state, p);
    ShiftRows(state, p);
    AddRoundKey(B.ROUNDS, state, p, roundKey);
  }

  method InvRounds(state: array<bv8>, p: nat, roundKey: array<bv8>, ghost was: B.Block)
    requires p + 16 <= state.Length && roundKey.Length == 176 && roundKey != state
    requires state[p..p + 16] == B.Down(was, roundKey[..], B.ROUNDS - 1)
    modifies state
    ensures state[p..p + 16] == B.Down(was, roundKey[..], 0)
    ensures SameOutside(state[..], old(state[..]), p)
  {
    var round := B.ROUNDS - 1;
    while round > 0
      invariant 0 <= round < B.ROUNDS
      invariant state[p..p + 16] == B.Down(was, roundKey[..], round)
      invariant SameOutside(state[..], old(state[..]), p)
    {
      InvRound(round, state, p, roundKey);
      round := round - 1;
    }
  }

  method InvCipher(state: array<bv8>, p: nat, roundKey: array<bv8>)
    requires p + 16 <= state.Length && roundKey.Length == 176 && roundKey != state
    modifies state
    ensures state[p..p + 16] == B.InvCipher(old(state[p..p + 16]), roundKey[..])
    ensures SameOutside(state[..], old(state[..]), p)
  {
    ghost var was := state[p..p + 16];
    AddRoundKey(B.ROUNDS, state, p, roundKey);
    InvRounds(state, p, roundKey, was);
    InvShiftRows(state, p);
    InvSubBytes(state, p);
    AddRoundKey(0, state, p, roundKey);
  }
}
