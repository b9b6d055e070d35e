/**
 * The cipher byte by byte, with the indices of FIPS 197 and none of the transformations it is put together
 * from: each byte of a middle round is a row of the matrix times four S-box values, and each byte of the
 * ciphertext is one S-box value.
 */
module AesRounds {
  import opened GaloisField
  import opened AesColumns
  import opened AesSbox
  import opened AesBlock

  // Row r of a column, the columns counted round and round.
  function Cell(s: Block, r: nat, column: nat): bv8
    requires r < 4
  {
    s[4 * (column % 4) + r]
  }

  // The matrix of MixColumns: rows 2 3 1 1, 1 2 3 1, 1 1 2 3 and 3 1 1 2.
  function Coefficient(r: nat, j: nat): bv8
    requires r < 4 && j < 4
  {
    var row: seq<bv8> := if r == 0 then [2, 3, 1, 1] else if r == 1 then [1, 2, 3, 1] else if r == 2 then [1, 1, 2, 3] else [3, 1, 1, 2];
    row[j]
  }

  function Term(s: Block, r: nat, c: nat, j: nat): bv8
    requires r < 4 && j < 4
  {
    FieldProduct(Sbox(Cell(s, j, c + j)), Coefficient(r, j))
  }

  // ---------- One column ----------

  lemma TimesOne(x: bv8)
    ensures FieldProduct(x, 1) == x
  {
  }

  lemma MixRow(k: Column, r: nat)
    requires r < 4
    ensures ByteOf(Mix(k), r) ==
      Add(Add(Add(FieldProduct(k.a, Coefficient(r, 0)), FieldProduct(k.b, Coefficient(r, 1))),
              FieldProduct(k.c, Coefficient(r, 2))), FieldProduct(k.d, Coefficient(r, 3)))
  {
    TimesOne(k.a);
    TimesOne(k.b);
    TimesOne(k.c);
    TimesOne(k.d);
    if r == 0 {
      MixIsMatrixProduct(k.a, k.b, k.c, k.d);
    } else if r == 1 {
      MixIsMatrixProduct(k.b, k.c, k.d, k.a);
      SumRotates(k.a, FieldProduct(k.b, 2), FieldProduct(k.c, 3), k.d);
    } else if r == 2 {
      MixIsMatrixProduct(k.c, k.d, k.a, k.b);
      SumRotates(k.a, k.b, FieldProduct(k.c, 2), FieldProduct(k.d, 3));
      SumRotates(k.b, FieldProduct(k.c, 2), FieldProduct(k.d, 3), k.a);
    } else {
      MixIsMatrixProduct(k.d, k.a, k.b, k.c);
      SumRotates(FieldProduct(k.d, 2), FieldProduct(k.a, 3), k.b, k.c);
    }
  }

  // ---------- One round ----------

  lemma IndexParts(c: nat, r: nat)
    requires c < 4 && r < 4
    ensures (4 * c + r) / 4 == c && (4 * c + r) % 4 == r
  {
  }

  // Bytes sent through any table and moved by ShiftRows.
  lemma MovedByte(f: bv8 -> bv8, s: Block, r: nat, c: nat)
    requires r < 4 && c < 4
    ensures ShiftRows(MapBytes(f, s))[4 * c + r] == f(Cell(s, r, c + r))
  {
    IndexParts(c, r);
  }

  lemma MovedColumn(f: bv8 -> bv8, s: Block, c: nat) returns (k: Column)
    requires c < 4
    ensures k == ColumnOf(ShiftRows(MapBytes(f, s)), c)
    ensures k.a == f(Cell(s, 0, c)) && k.b == f(Cell(s, 1, c + 1)) && k.c == f(Cell(s, 2, c + 2)) && k.d == f(Cell(s, 3, c + 3))
  {
    MovedByte(f, s, 0, c);
    MovedByte(f, s, 1, c);
    MovedByte(f, s, 2, c);
    MovedByte(f, s, 3, c);
    k := ColumnOf(ShiftRows(MapBytes(f, s)), c);
  }

  lemma ShiftedByte(s: Block, r: nat, c: nat)
    requires r < 4 && c < 4
    ensures ShiftRows(SubBytes(s))[4 * c + r] == Sbox(Cell(s, r, c + r))
  {
    MovedByte(Sbox, s, r, c);
  }

  lemma MixedByte(s: Block, r: nat, c: nat)
    requires r < 4 && c < 4
    ensures MixColumns(s)[4 * c + r] == ByteOf(Mix(ColumnOf(s, c)), r)
  {
    IndexParts(c, r);
  }

  lemma MixedTerms(s: Block, r: nat, c: nat)
    requires r < 4 && c < 4
    ensures MixColumns(ShiftRows(SubBytes(s)))[4 * c + r] ==
            Add(Add(Add(Term(s, r, c, 0), Term(s, r, c, 1)), Term(s, r, c, 2)), Term(s, r, c, 3))
  {
    var k := MovedColumn(Sbox, s, c);
    MixedByte(ShiftRows(SubBytes(s)), r, c);
    MixRow(k, r);
  }

  // The state before the first round.
  lemma OpeningByte(s: Block, keys: RoundKeys, i: nat)
    requires i < 16
    ensures Up(s, keys, 0)[i] == s[i] ^ keys[i]
  {
  }

  function SumOf(a: bv8, b: bv8, c: bv8, d: bv8): bv8 {
    Add(Add(Add(a, b), c), d)
  }

  // Row r of column c after MixColumns: row r of the matrix times the S-box values of the diagonal that starts
  // in column c.
  function RowSum(s: Block, r: nat, c: nat): bv8
    requires r < 4 && c < 4
  {
    SumOf(Term(s, r, c, 0), Term(s, r, c, 1), Term(s, r, c, 2), Term(s, r, c, 3))
  }

  lemma RoundByte(mixed: Block, now: Block, sum: bv8, keys: RoundKeys, n: nat, i: nat)
    requires n <= ROUNDS && i < 16 && now == AddRoundKey(mixed, keys, n) && mixed[i] == sum
    ensures now[i] == sum ^ keys[16 * n + i]
  {
  }

  function Scaled(x: bv8, k: bv8): bv8 {
    FieldProduct(Sbox(x), k)
  }

  // The terms of a row, for any way to scale a byte.
  function Terms(h: (bv8, bv8) -> bv8, s: Block, r: nat, c: nat): Column
    requires r < 4
  {
    Column(h(Cell(s, 0, c), Coefficient(r, 0)), h(Cell(s, 1, c + 1), Coefficient(r, 1)),
           h(Cell(s, 2, c + 2), Coefficient(r, 2)), h(Cell(s, 3, c + 3), Coefficient(r, 3)))
  }

  lemma RowIsTerms(s: Block, r: nat, c: nat) returns (p: Column)
    requires r < 4 && c < 4
    ensures p == Terms(Scaled, s, r, c) && RowSum(s, r, c) == SumOf(p.a, p.b, p.c, p.d)
  {
    p := Terms(Scaled, s, r, c);
  }

  // x is the sum of row r for column c. Said of every scaling that is the S-box and the product, so that it is
  // worked out where this is proved and not again where it is used.
  ghost predicate SumIs(s: Block, r: nat, c: nat, x: bv8)
    requires r < 4
  {
    forall h: (bv8, bv8) -> bv8 :: h == Scaled ==> var p := Terms(h, s, r, c); x == SumOf(p.a, p.b, p.c, p.d)
  }

  lemma RowSumIs(s: Block, r: nat, c: nat, x: bv8)
    requires r < 4 && c < 4
    ensures SumIs(s, r, c, x) <==> x == RowSum(s, r, c)
  {
    var p := RowIsTerms(s, r, c);
    var h := Scaled;
    assert Terms(h, s, r, c) == p;
  }

  lemma MixedSum(s: Block, r: nat, c: nat)
    requires r < 4 && c < 4
    ensures SumIs(s, r, c, MixColumns(ShiftRows(SubBytes(s)))[4 * c + r])
  {
    MixedTerms(s, r, c);
    RowSumIs(s, r, c, MixColumns(ShiftRows(SubBytes(s)))[4 * c + r]);
  }

  lemma MiddleSum(s: Block, keys: RoundKeys, n: nat, r: nat, c: nat) returns (x: bv8, k: bv8, out: bv8)
    requires 1 <= n <= 9 && r < 4 && c < 4
    ensures SumIs(Up(s, keys, n - 1), r, c, x) && k == keys[16 * n + 4 * c + r]
    ensures out == Up(s, keys, n)[4 * c + r] && out == Add(x, k)
  {
    var was, now := Up(s, keys, n - 1), Up(s, keys, n);
    var mixed := MixColumns(ShiftRows(SubBytes(was)));
    MixedSum(was, r, c);
    x, k, out := mixed[4 * c + r], keys[16 * n + 4 * c + r], now[4 * c + r];
    RoundByte(mixed, now, x, keys, n, 4 * c + r);
  }

  lemma MiddleByteOf(s: Block, keys: RoundKeys, n: nat, r: nat, c: nat) returns (x: bv8, k: bv8, out: bv8)
    requires 1 <= n <= 9 && r < 4 && c < 4
    ensures x == RowSum(Up(s, keys, n - 1), r, c) && k == keys[16 * n + 4 * c + r]
    ensures out == Up(s, keys, n)[4 * c + r] && out == Add(x, k)
  {
    x, k, out := MiddleSum(s, keys, n, r, c);
    RowSumIs(Up(s, keys, n - 1), r, c, x);
  }

  // Round n of the first nine, and a byte of its round key.
  lemma MiddleByte(s: Block, keys: RoundKeys, n: nat, r: nat, c: nat)
    requires 1 <= n <= 9 && r < 4 && c < 4
    ensures Up(s, keys, n)[4 * c + r] == RowSum(Up(s, keys, n - 1), r, c) ^ keys[16 * n + 4 * c + r]
  {
    var x, k, out := MiddleByteOf(s, keys, n, r, c);
  }

  // The tenth round: each byte of the ciphertext is one S-box value and one byte of the last round key.
  lemma LastByte(s: Block, keys: RoundKeys, r: nat, c: nat)
    requires r < 4 && c < 4
    ensures Cipher(s, keys)[4 * c + r] == Sbox(Cell(Up(s, keys, 9), r, c + r)) ^ keys[160 + 4 * c + r]
  {
    var was := Up(s, keys, 9);
    ShiftedByte(was, r, c);
    RoundByte(ShiftRows(SubBytes(was)), Cipher(s, keys), Sbox(Cell(was, r, c + r)), keys, 10, 4 * c + r);
  }

  function Masked(x: bv8, k: bv8): bv8 {
    Sbox(x) ^ k
  }

  lemma MasksAgree(x: bv8, y: bv8, k: bv8)
    ensures Masked(x, k) == Masked(y, k) <==> x == y
  {
    InvSboxUndoesSbox(x);
    InvSboxUndoesSbox(y);
    XorAgrees(Sbox(x), Sbox(y), k);
  }

  lemma XorAgrees(x: bv8, y: bv8, k: bv8)
    ensures x ^ k == y ^ k <==> x == y
  {
  }

  lemma LastByteOf(s: Block, keys: RoundKeys, r: nat, c: nat) returns (x: bv8, k: bv8, out: bv8)
    requires r < 4 && c < 4
    ensures x == Cell(Up(s, keys, 9), r, c + r) && k == keys[160 + 4 * c + r]
    ensures out == Cipher(s, keys)[4 * c + r] && out == Masked(x, k)
  {
    LastByte(s, keys, r, c);
    x, k, out := Cell(Up(s, keys, 9), r, c + r), keys[160 + 4 * c + r], Cipher(s, keys)[4 * c + r];
  }

  // So the last round moves a difference and does not spread it: two ciphertexts under one key agree in row r
  // of column c exactly when the states before the last round agree in row r of column c + r.
  lemma LastRoundIsLocal(s: Block, t: Block, keys: RoundKeys, r: nat, c: nat)
    requires r < 4 && c < 4
    ensures Cipher(s, keys)[4 * c + r] == Cipher(t, keys)[4 * c + r] <==>
            Cell(Up(s, keys, 9), r, c + r) == Cell(Up(t, keys, 9), r, c + r)
  {
    var x, k, u := LastByteOf(s, keys, r, c);
    var y, k', v := LastByteOf(t, keys, r, c);
    MasksAgree(x, y, k);
  }

  lemma ProductsAgree(x: bv8, y: bv8, k: bv8)
    requires 1 <= k <= 3
    ensures FieldProduct(x, k) == FieldProduct(y, k) <==> x == y
  {
    if k == 1 {
    } else if k == 2 {
    } else {
    }
  }

  lemma ScaledAgree(x: bv8, y: bv8, k: bv8)
    requires 1 <= k <= 3
    ensures Scaled(x, k) == Scaled(y, k) <==> x == y
  {
    InvSboxUndoesSbox(x);
    InvSboxUndoesSbox(y);
    ProductsAgree(Sbox(x), Sbox(y), k);
  }

  lemma CoefficientRange(r: nat, j: nat) returns (k: bv8)
    requires r < 4 && j < 4
    ensures k == Coefficient(r, j) && 1 <= k <= 3
  {
    k := Coefficient(r, j);
  }

  lemma AddedTo(p: bv8, q: bv8, k: bv8) returns (x: bv8, y: bv8)
    ensures x == Add(p, k) && y == Add(q, k) && (x == y <==> p == q)
  {
    x, y := Add(p, k), Add(q, k);
  }

  lemma AddedFrom(p: bv8, q: bv8, k: bv8) returns (x: bv8, y: bv8)
    ensures x == Add(k, p) && y == Add(k, q) && (x == y <==> p == q)
  {
    x, y := Add(k, p), Add(k, q);
  }

  // Row j may differ.
  lemma SumsAgree(p0: bv8, q0: bv8, p1: bv8, q1: bv8, p2: bv8, q2: bv8, p3: bv8, q3: bv8, j: nat) returns (x: bv8, y: bv8)
    requires j < 4 && (j != 0 ==> p0 == q0) && (j != 1 ==> p1 == q1) && (j != 2 ==> p2 == q2) && (j != 3 ==> p3 == q3)
    ensures x == SumOf(p0, p1, p2, p3) && y == SumOf(q0, q1, q2, q3)
    ensures x == y <==> p0 == q0 && p1 == q1 && p2 == q2 && p3 == q3
  {
    var x1, y1, x2, y2;
    if j == 0 {
      x1, y1 := AddedTo(p0, q0, p1);
      x2, y2 := AddedTo(x1, y1, p2);
      x, y := AddedTo(x2, y2, p3);
    } else if j == 1 {
      x1, y1 := AddedFrom(p1, q1, p0);
      x2, y2 := AddedTo(x1, y1, p2);
      x, y := AddedTo(x2, y2, p3);
    } else if j == 2 {
      x2, y2 := AddedFrom(p2, q2, Add(p0, p1));
      x, y := AddedTo(x2, y2, p3);
    } else {
      x, y := AddedFrom(p3, q3, Add(Add(p0, p1), p2));
    }
  }

  // On the diagonal that starts in column c, but for row j.
  ghost predicate AgreeBut(s: Block, t: Block, c: nat, j: nat) {
    && (j != 0 ==> Cell(s, 0, c) == Cell(t, 0, c)) && (j != 1 ==> Cell(s, 1, c + 1) == Cell(t, 1, c + 1))
    && (j != 2 ==> Cell(s, 2, c + 2) == Cell(t, 2, c + 2)) && (j != 3 ==> Cell(s, 3, c + 3) == Cell(t, 3, c + 3))
  }

  ghost predicate TellsApart(h: (bv8, bv8) -> bv8) {
    forall x, y, k :: 1 <= k <= 3 ==> (h(x, k) == h(y, k) <==> x == y)
  }

  lemma TermsAgree(h: (bv8, bv8) -> bv8, s: Block, t: Block, r: nat, c: nat, p: Column, q: Column)
    requires TellsApart(h) && r < 4 && p == Terms(h, s, r, c) && q == Terms(h, t, r, c)
    ensures (p.a == q.a <==> Cell(s, 0, c) == Cell(t, 0, c)) && (p.b == q.b <==> Cell(s, 1, c + 1) == Cell(t, 1, c + 1))
    ensures (p.c == q.c <==> Cell(s, 2, c + 2) == Cell(t, 2, c + 2)) && (p.d == q.d <==> Cell(s, 3, c + 3) == Cell(t, 3, c + 3))
  {
    var k0 := CoefficientRange(r, 0);
    var k1 := CoefficientRange(r, 1);
    var k2 := CoefficientRange(r, 2);
    var k3 := CoefficientRange(r, 3);
  }

  lemma RowSumsAgree(s: Block, t: Block, r: nat, c: nat, j: nat) returns (x: bv8, y: bv8)
    requires r < 4 && c < 4 && j < 4 && AgreeBut(s, t, c, j)
    ensures x == RowSum(s, r, c) && y == RowSum(t, r, c)
    ensures x == y <==> Cell(s, j, c + j) == Cell(t, j, c + j)
  {
    var p := RowIsTerms(s, r, c);
    var q := RowIsTerms(t, r, c);
    forall x, y, k | 1 <= k <= 3 ensures Scaled(x, k) == Scaled(y, k) <==> x == y {
      ScaledAgree(x, y, k);
    }
    TermsAgree(Scaled, s, t, r, c, p, q);
    x, y := SumsAgree(p.a, q.a, p.b, q.b, p.c, q.c, p.d, q.d, j);
  }

  // A middle round spreads a difference over a column and no further: where two states agree on a diagonal but
  // perhaps in one row, the four bytes the round makes of that diagonal all agree, or all differ.
  lemma MiddleRoundSpreads(s: Block, t: Block, keys: RoundKeys, n: nat, r: nat, c: nat, j: nat)
    requires 1 <= n <= 9 && r < 4 && c < 4 && j < 4 && AgreeBut(Up(s, keys, n - 1), Up(t, keys, n - 1), c, j)
    ensures Up(s, keys, n)[4 * c + r] == Up(t, keys, n)[4 * c + r] <==>
            Cell(Up(s, keys, n - 1), j, c + j) == Cell(Up(t, keys, n - 1), j, c + j)
  {
    var x, k, u := MiddleByteOf(s, keys, n, r, c);
    var y, k', v := MiddleByteOf(t, keys, n, r, c);
    var x', y' := RowSumsAgree(Up(s, keys, n - 1), Up(t, keys, n - 1), r, c, j);
    var u', v' := AddedTo(x, y, k);
  }
}
