/**
 * One step of the key schedule and one round of the cipher as relations on four columns, for the examples of
 * FIPS 197: a step is proved to be what the schedule or the cipher does, and can then be checked column by column.
 */
module AesGrids {
  import opened AesColumns
  import opened AesSbox
  import opened AesBlock
  import opened AesKeys
  import opened AesRounds

  // The four columns of a state, or the four words of a round key.
  datatype Grid = Grid(c0: Column, c1: Column, c2: Column, c3: Column)

  function GridOf(s: Block): Grid {
    Grid(ColumnOf(s, 0), ColumnOf(s, 1), ColumnOf(s, 2), ColumnOf(s, 3))
  }

  function RoundKey(keys: RoundKeys, n: nat): Grid
    requires n <= ROUNDS
  {
    Grid(WordAt(keys, 4 * n), WordAt(keys, 4 * n + 1), WordAt(keys, 4 * n + 2), WordAt(keys, 4 * n + 3))
  }

  function AddGrids(g: Grid, k: Grid): Grid {
    Grid(AddWords(g.c0, k.c0), AddWords(g.c1, k.c1), AddWords(g.c2, k.c2), AddWords(g.c3, k.c3))
  }

  // The S-box sends the bytes of x to those of y. Said of every table that is the S-box, so that the table is
  // looked up where this is proved and not again where it is used.
  ghost predicate Becomes(x: Column, y: Column) {
    forall t: bv8 -> bv8 :: t == Sbox ==> y == Column(t(x.a), t(x.b), t(x.c), t(x.d))
  }

  lemma BytesBecome(x: Column, y: Column)
    requires Becomes(x, y)
    ensures y == Substituted(x.a, x.b, x.c, x.d)
  {
    var t := Sbox;
    assert y == Column(t(x.a), t(x.b), t(x.c), t(x.d));
  }

  function Substituted(a: bv8, b: bv8, c: bv8, d: bv8): Column {
    Column(Sbox(a), Sbox(b), Sbox(c), Sbox(d))
  }

  lemma LookedUp(a: bv8, b: bv8, c: bv8, d: bv8, y: Column)
    requires y == Substituted(a, b, c, d)
    ensures Becomes(Column(a, b, c, d), y)
  {
  }

  lemma SameByte(s: Block, t: Block, i: nat, c: nat)
    requires c < 4 && 4 * c <= i < 4 * c + 4 && ColumnOf(s, c) == ColumnOf(t, c)
    ensures s[i] == t[i]
  {
  }

  lemma SameGrid(s: Block, t: Block)
    requires GridOf(s) == GridOf(t)
    ensures s == t
  {
    forall i: nat | i < 16 ensures s[i] == t[i] {
      SameByte(s, t, i, i / 4);
    }
  }

  lemma BlockOf(g: Grid) returns (s: Block)
    ensures GridOf(s) == g
  {
    s := [g.c0.a, g.c0.b, g.c0.c, g.c0.d, g.c1.a, g.c1.b, g.c1.c, g.c1.d,
          g.c2.a, g.c2.b, g.c2.c, g.c2.d, g.c3.a, g.c3.b, g.c3.c, g.c3.d];
  }

  // ---------- One step of the key schedule and of the cipher, on grids ----------

  function NextKeyBy(add: (Column, Column) -> Column, k: Grid, t: Column): Grid {
    var w0 := add(k.c0, t);
    var w1 := add(k.c1, w0);
    var w2 := add(k.c2, w1);
    Grid(w0, w1, w2, add(k.c3, w2))
  }

  function NextKey(k: Grid, t: Column): Grid {
    NextKeyBy(AddWords, k, t)
  }

  ghost predicate KeyStep(k: Grid, n: nat, next: Grid)
    requires 1 <= n <= ROUNDS
  {
    exists t :: Becomes(Column(k.c3.b, k.c3.c, k.c3.d, k.c3.a), t) && next == NextKey(k, t.(a := t.a ^ Rcon(n)))
  }

  // The bytes that ShiftRows puts into each column.
  ghost predicate Shifted(g: Grid, d: Grid) {
    && Becomes(Column(g.c0.a, g.c1.b, g.c2.c, g.c3.d), d.c0) && Becomes(Column(g.c1.a, g.c2.b, g.c3.c, g.c0.d), d.c1)
    && Becomes(Column(g.c2.a, g.c3.b, g.c0.c, g.c1.d), d.c2) && Becomes(Column(g.c3.a, g.c0.b, g.c1.c, g.c2.d), d.c3)
  }

  function Mixed(g: Grid): Grid {
    Grid(Mix(g.c0), Mix(g.c1), Mix(g.c2), Mix(g.c3))
  }

  ghost predicate RoundStep(g: Grid, k: Grid, next: Grid) {
    exists d :: Shifted(g, d) && next == AddGrids(Mixed(d), k)
  }

  ghost predicate LastStep(g: Grid, k: Grid, next: Grid) {
    exists d :: Shifted(g, d) && next == AddGrids(d, k)
  }

  lemma TurnedAndSent(w: Column, i: nat, t: Column) returns (u: Column)
    requires 4 <= i < 44 && i % 4 == 0 && t == Substituted(w.b, w.c, w.d, w.a)
    ensures u == Temp(w, i) && u == t.(a := t.a ^ Rcon(i / 4))
  {
    u := Temp(w, i);
  }

  lemma TempOfWord(w: Column, n: nat, t: Column) returns (u: Column)
    requires 1 <= n <= ROUNDS && Becomes(Column(w.b, w.c, w.d, w.a), t)
    ensures u == Temp(w, 4 * n) && u == t.(a := t.a ^ Rcon(n))
  {
    BytesBecome(Column(w.b, w.c, w.d, w.a), t);
    u := TurnedAndSent(w, 4 * n, t);
  }

  // The words of a round key by the words of the one before, for any way to add words.
  lemma WordsFollow(add: (Column, Column) -> Column, k: Grid, w: Grid, u: Column)
    requires w.c0 == add(k.c0, u) && w.c1 == add(k.c1, w.c0) && w.c2 == add(k.c2, w.c1) && w.c3 == add(k.c3, w.c2)
    ensures w == NextKeyBy(add, k, u)
  {
  }

  ghost predicate Follows(keys: RoundKeys, i: nat, t: Column)
    requires 4 <= i < 44
  {
    WordAt(keys, i) == AddWords(WordAt(keys, i - 4), t)
  }

  ghost predicate KeyFollows(keys: RoundKeys, n: nat, u: Column)
    requires 1 <= n <= ROUNDS
  {
    && Follows(keys, 4 * n, u) && Follows(keys, 4 * n + 1, WordAt(keys, 4 * n))
    && Follows(keys, 4 * n + 2, WordAt(keys, 4 * n + 1)) && Follows(keys, 4 * n + 3, WordAt(keys, 4 * n + 2))
  }

  lemma KeyIsNext(keys: RoundKeys, n: nat, k: Grid, u: Column)
    requires 1 <= n <= ROUNDS && k == RoundKey(keys, n - 1) && KeyFollows(keys, n, u)
    ensures RoundKey(keys, n) == NextKey(k, u)
  {
    WordsFollow(AddWords, k, RoundKey(keys, n), u);
  }

  ghost predicate RuleAt(keys: RoundKeys, i: nat) {
    4 <= i < 44 ==> Follows(keys, i, Temp(WordAt(keys, i - 1), i))
  }

  ghost predicate RuleEverywhere(keys: RoundKeys) {
    forall i: nat :: RuleAt(keys, i)
  }

  lemma RuleOfSchedule(keys: RoundKeys, key: Key)
    requires IsSchedule(keys, key, 44)
    ensures RuleEverywhere(keys)
  {
    forall i: nat ensures RuleAt(keys, i) {
      if 4 <= i < 44 {
        var t := WordOfSchedule(keys, key, i);
      }
    }
  }

  lemma FirstWord(keys: RoundKeys, i: nat) returns (u: Column)
    requires RuleEverywhere(keys) && 4 <= i < 44
    ensures u == Temp(WordAt(keys, i - 1), i) && Follows(keys, i, u)
  {
    assert RuleAt(keys, i);
    u := Temp(WordAt(keys, i - 1), i);
  }

  lemma OtherWord(keys: RoundKeys, i: nat, t: Column)
    requires RuleEverywhere(keys) && 4 <= i < 44 && i % 4 != 0 && t == WordAt(keys, i - 1)
    ensures Follows(keys, i, t)
  {
    assert RuleAt(keys, i);
  }

  ghost predicate KeyGoesOn(keys: RoundKeys, n: nat, k: Grid)
    requires 1 <= n <= ROUNDS
  {
    exists u :: u == Temp(k.c3, 4 * n) && KeyFollows(keys, n, u)
  }

  lemma OtherWords(keys: RoundKeys, n: nat, u: Column)
    requires RuleEverywhere(keys) && 1 <= n <= ROUNDS && Follows(keys, 4 * n, u)
    ensures KeyFollows(keys, n, u)
  {
    OtherWord(keys, 4 * n + 1, WordAt(keys, 4 * n));
    OtherWord(keys, 4 * n + 2, WordAt(keys, 4 * n + 1));
    OtherWord(keys, 4 * n + 3, WordAt(keys, 4 * n + 2));
  }

  lemma ScheduledKey(keys: RoundKeys, n: nat, k: Grid)
    requires RuleEverywhere(keys) && 1 <= n <= ROUNDS && RoundKey(keys, n - 1) == k
    ensures KeyGoesOn(keys, n, k)
  {
    var u := FirstWord(keys, 4 * n);
    OtherWords(keys, n, u);
  }

  lemma KeyOfStep(keys: RoundKeys, n: nat, k: Grid, next: Grid)
    requires 1 <= n <= ROUNDS && RoundKey(keys, n - 1) == k && KeyStep(k, n, next) && KeyGoesOn(keys, n, k)
    ensures RoundKey(keys, n) == next
  {
    var u :| u == Temp(k.c3, 4 * n) && KeyFollows(keys, n, u);
    var t :| Becomes(Column(k.c3.b, k.c3.c, k.c3.d, k.c3.a), t) && next == NextKey(k, t.(a := t.a ^ Rcon(n)));
    var u' := TempOfWord(k.c3, n, t);
    KeyIsNext(keys, n, k, u);
  }

  lemma StepKey(keys: RoundKeys, n: nat, k: Grid, next: Grid)
    requires RuleEverywhere(keys) && 1 <= n <= ROUNDS && RoundKey(keys, n - 1) == k && KeyStep(k, n, next)
    ensures RoundKey(keys, n) == next
  {
    ScheduledKey(keys, n, k);
    KeyOfStep(keys, n, k, next);
  }

  lemma ShiftedColumn(was: Block, c: nat, x: Column, y: Column)
    requires c < 4 && x == Column(Cell(was, 0, c), Cell(was, 1, c + 1), Cell(was, 2, c + 2), Cell(was, 3, c + 3))
    requires Becomes(x, y)
    ensures ColumnOf(ShiftRows(SubBytes(was)), c) == y
  {
    var t: bv8 -> bv8 := Sbox;
    var k := MovedColumn(t, was, c);
    assert y == Column(t(x.a), t(x.b), t(x.c), t(x.d));
  }

  lemma GridCells(was: Block) returns (x0: Column, x1: Column, x2: Column, x3: Column)
    ensures x0 == Column(Cell(was, 0, 0), Cell(was, 1, 1), Cell(was, 2, 2), Cell(was, 3, 3))
    ensures x1 == Column(Cell(was, 0, 1), Cell(was, 1, 2), Cell(was, 2, 3), Cell(was, 3, 4))
    ensures x2 == Column(Cell(was, 0, 2), Cell(was, 1, 3), Cell(was, 2, 4), Cell(was, 3, 5))
    ensures x3 == Column(Cell(was, 0, 3), Cell(was, 1, 4), Cell(was, 2, 5), Cell(was, 3, 6))
    ensures var g := GridOf(was);
            && x0 == Column(g.c0.a, g.c1.b, g.c2.c, g.c3.d) && x1 == Column(g.c1.a, g.c2.b, g.c3.c, g.c0.d)
            && x2 == Column(g.c2.a, g.c3.b, g.c0.c, g.c1.d) && x3 == Column(g.c3.a, g.c0.b, g.c1.c, g.c2.d)
  {
    x0 := Column(was[0], was[5], was[10], was[15]);
    x1 := Column(was[4], was[9], was[14], was[3]);
    x2 := Column(was[8], was[13], was[2], was[7]);
    x3 := Column(was[12], was[1], was[6], was[11]);
  }

  lemma ShiftedGrid(was: Block, d: Grid)
    requires Shifted(GridOf(was), d)
    ensures GridOf(ShiftRows(SubBytes(was))) == d
  {
    var x0, x1, x2, x3 := GridCells(was);
    ShiftedColumn(was, 0, x0, d.c0);
    ShiftedColumn(was, 1, x1, d.c1);
    ShiftedColumn(was, 2, x2, d.c2);
    ShiftedColumn(was, 3, x3, d.c3);
  }

  lemma MappedGrid(f: Column -> Column, t: Block)
    ensures GridOf(MapColumns(f, t)) == Grid(f(ColumnOf(t, 0)), f(ColumnOf(t, 1)), f(ColumnOf(t, 2)), f(ColumnOf(t, 3)))
  {
    MapColumnsAt(f, t, 0);
    MapColumnsAt(f, t, 1);
    MapColumnsAt(f, t, 2);
    MapColumnsAt(f, t, 3);
  }

  lemma MixedGrid(t: Block, d: Grid)
    requires GridOf(t) == d
    ensures GridOf(MixColumns(t)) == Mixed(d)
  {
    MappedGrid(Mix, t);
  }

  lemma AddedColumn(t: Block, keys: RoundKeys, n: nat, c: nat)
    requires n <= ROUNDS && c < 4
    ensures ColumnOf(AddRoundKey(t, keys, n), c) == AddWords(ColumnOf(t, c), WordAt(keys, 4 * n + c))
  {
    var i, j := 4 * c, 4 * (4 * n + c);
    var u: Block := AddRoundKey(t, keys, n);
    AddedFour(t, u, keys, i, j, n);
  }

  lemma AddedFour(t: Block, u: Block, keys: RoundKeys, i: nat, j: nat, n: nat)
    requires n <= ROUNDS && u == AddRoundKey(t, keys, n) && i + 4 <= 16 && j == 16 * n + i
    ensures u[i] == t[i] ^ keys[j] && u[i + 1] == t[i + 1] ^ keys[j + 1]
    ensures u[i + 2] == t[i + 2] ^ keys[j + 2] && u[i + 3] == t[i + 3] ^ keys[j + 3]
  {
  }

  lemma AddedGrid(t: Block, keys: RoundKeys, n: nat, g: Grid, k: Grid)
    requires n <= ROUNDS && GridOf(t) == g && RoundKey(keys, n) == k
    ensures GridOf(AddRoundKey(t, keys, n)) == AddGrids(g, k)
  {
    AddedColumn(t, keys, n, 0);
    AddedColumn(t, keys, n, 1);
    AddedColumn(t, keys, n, 2);
    AddedColumn(t, keys, n, 3);
  }

  lemma MiddleStep(was: Block, keys: RoundKeys, n: nat, g: Grid, k: Grid, next: Grid)
    requires n <= ROUNDS && GridOf(was) == g && RoundKey(keys, n) == k && RoundStep(g, k, next)
    ensures GridOf(AddRoundKey(MixColumns(ShiftRows(SubBytes(was))), keys, n)) == next
  {
    var d :| Shifted(g, d) && next == AddGrids(Mixed(d), k);
    ShiftedGrid(was, d);
    MixedGrid(ShiftRows(SubBytes(was)), d);
    AddedGrid(MixColumns(ShiftRows(SubBytes(was))), keys, n, Mixed(d), k);
  }

  lemma FinalStep(was: Block, keys: RoundKeys, n: nat, g: Grid, k: Grid, next: Grid)
    requires n <= ROUNDS && GridOf(was) == g && RoundKey(keys, n) == k && LastStep(g, k, next)
    ensures GridOf(AddRoundKey(ShiftRows(SubBytes(was)), keys, n)) == next
  {
    var d :| Shifted(g, d) && next == AddGrids(d, k);
    ShiftedGrid(was, d);
    AddedGrid(ShiftRows(SubBytes(was)), keys, n, d, k);
  }
}
