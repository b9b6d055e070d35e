/**
 * MixColumns and InvMixColumns on one column of the state (FIPS 197, sections 5.1.3 and 5.3.3).
 *
 * Both are circulant, so one byte of each is a function of the column rotated to start at that byte.
 * That the two undo each other holds in every vector space over GF(2) with an additive map x; the
 * source's is the bytes under exclusive or, with `XTime`.
 */
module AesColumns {
  import opened GaloisField
  import opened LinearForms

  // ---------- In any space ----------

  function MixIn<T>(s: Space<T>, a: T, b: T, c: T, d: T): T {
    s.add(a, s.add(s.x(s.add(a, b)), s.add(s.add(s.add(a, b), c), d)))
  }

  function MixForm(a: Form, b: Form, c: Form, d: Form): Form {
    Sum(a, Sum(Shift(Sum(a, b)), Sum(Sum(Sum(a, b), c), d)))
  }

  predicate BelowX4(f: Form) {
    f.r4 == NONE
  }

  lemma NamesMix<T(!new)>(s: Space<T>, k: Letters<T>, fa: Form, a: T, fb: Form, b: T, fc: Form, c: T, fd: Form, d: T)
    requires IsSpace(s) && Names(s, k, fa, a) && Names(s, k, fb, b) && Names(s, k, fc, c) && Names(s, k, fd, d)
    requires BelowX4(fa) && BelowX4(fb)
    ensures Names(s, k, MixForm(fa, fb, fc, fd), MixIn(s, a, b, c, d))
  {
    var ab, fab := s.add(a, b), Sum(fa, fb);
    NamesSum(s, k, fa, a, fb, b);
    NamesX(s, k, fab, ab);
    NamesSum(s, k, fab, ab, fc, c);
    NamesSum(s, k, Sum(fab, fc), s.add(ab, c), fd, d);
    var abcd, fabcd := s.add(s.add(ab, c), d), Sum(Sum(fab, fc), fd);
    NamesSum(s, k, Shift(fab), s.x(ab), fabcd, abcd);
    NamesSum(s, k, fa, a, Sum(Shift(fab), fabcd), s.add(s.x(ab), abcd));
  }

  // a times the polynomial with the given coefficients of 1, x, x^2, x^3, leaving out zero terms.
  function Times14<T>(s: Space<T>, a: T): T {
    s.add(s.add(s.x(a), s.x(s.x(a))), s.x(s.x(s.x(a))))
  }

  function Times11<T>(s: Space<T>, a: T): T {
    s.add(s.add(a, s.x(a)), s.x(s.x(s.x(a))))
  }

  function Times13<T>(s: Space<T>, a: T): T {
    s.add(s.add(a, s.x(s.x(a))), s.x(s.x(s.x(a))))
  }

  function Times9<T>(s: Space<T>, a: T): T {
    s.add(a, s.x(s.x(s.x(a))))
  }

  function InvMixIn<T>(s: Space<T>, a: T, b: T, c: T, d: T): T {
    s.add(s.add(s.add(Times14(s, a), Times11(s, b)), Times13(s, c)), Times9(s, d))
  }

  function Form14(f: Form): Form { Sum(Sum(Shift(f), Shift(Shift(f))), Shift(Shift(Shift(f)))) }
  function Form11(f: Form): Form { Sum(Sum(f, Shift(f)), Shift(Shift(Shift(f)))) }
  function Form13(f: Form): Form { Sum(Sum(f, Shift(Shift(f))), Shift(Shift(Shift(f)))) }
  function Form9(f: Form): Form { Sum(f, Shift(Shift(Shift(f)))) }

  function InvMixForm(a: Form, b: Form, c: Form, d: Form): Form {
    Sum(Sum(Sum(Form14(a), Form11(b)), Form13(c)), Form9(d))
  }

  predicate BelowX2(f: Form) {
    f.r2 == NONE && f.r3 == NONE && f.r4 == NONE
  }

  lemma NamesTimes<T(!new)>(s: Space<T>, k: Letters<T>, f: Form, v: T)
    requires IsSpace(s) && Names(s, k, f, v) && BelowX2(f)
    ensures Names(s, k, Form14(f), Times14(s, v)) && Names(s, k, Form11(f), Times11(s, v))
    ensures Names(s, k, Form13(f), Times13(s, v)) && Names(s, k, Form9(f), Times9(s, v))
  {
    var f1, f2, f3 := Shift(f), Shift(Shift(f)), Shift(Shift(Shift(f)));
    var v1, v2, v3 := s.x(v), s.x(s.x(v)), s.x(s.x(s.x(v)));
    NamesX(s, k, f, v);
    NamesX(s, k, f1, v1);
    NamesX(s, k, f2, v2);
    NamesSum(s, k, f1, v1, f2, v2);
    NamesSum(s, k, Sum(f1, f2), s.add(v1, v2), f3, v3);
    NamesSum(s, k, f, v, f1, v1);
    NamesSum(s, k, Sum(f, f1), s.add(v, v1), f3, v3);
    NamesSum(s, k, f, v, f2, v2);
    NamesSum(s, k, Sum(f, f2), s.add(v, v2), f3, v3);
    NamesSum(s, k, f, v, f3, v3);
  }

  lemma NamesInvMix<T(!new)>(s: Space<T>, k: Letters<T>, fa: Form, a: T, fb: Form, b: T, fc: Form, c: T, fd: Form, d: T)
    requires IsSpace(s) && Names(s, k, fa, a) && Names(s, k, fb, b) && Names(s, k, fc, c) && Names(s, k, fd, d)
    requires BelowX2(fa) && BelowX2(fb) && BelowX2(fc) && BelowX2(fd)
    ensures Names(s, k, InvMixForm(fa, fb, fc, fd), InvMixIn(s, a, b, c, d))
  {
    NamesTimes(s, k, fa, a);
    NamesTimes(s, k, fb, b);
    NamesTimes(s, k, fc, c);
    NamesTimes(s, k, fd, d);
    NamesSum(s, k, Form14(fa), Times14(s, a), Form11(fb), Times11(s, b));
    NamesSum(s, k, Sum(Form14(fa), Form11(fb)), s.add(Times14(s, a), Times11(s, b)), Form13(fc), Times13(s, c));
    NamesSum(s, k, Sum(Sum(Form14(fa), Form11(fb)), Form13(fc)),
             s.add(s.add(Times14(s, a), Times11(s, b)), Times13(s, c)), Form9(fd), Times9(s, d));
  }

  const A := OfRow(ROW_A)
  const B := OfRow(ROW_B)
  const C := OfRow(ROW_C)
  const D := OfRow(ROW_D)

  // The rows of the mixing matrix: 2 3 1 1, rotated.
  const MIX_A := Form(Row(false, true, true, true), Row(true, true, false, false), NONE, NONE, NONE)
  const MIX_B := Form(Row(true, false, true, true), Row(false, true, true, false), NONE, NONE, NONE)
  const MIX_C := Form(Row(true, true, false, true), Row(false, false, true, true), NONE, NONE, NONE)
  const MIX_D := Form(Row(true, true, true, false), Row(true, false, false, true), NONE, NONE, NONE)

  lemma MixRowA()
    ensures MixForm(A, B, C, D) == MIX_A
  {
  }

  lemma MixRowB()
    ensures MixForm(B, C, D, A) == MIX_B
  {
  }

  lemma MixRowC()
    ensures MixForm(C, D, A, B) == MIX_C
  {
  }

  lemma MixRowD()
    ensures MixForm(D, A, B, C) == MIX_D
  {
  }

  lemma MatricesCancel()
    ensures InvMixForm(MIX_A, MIX_B, MIX_C, MIX_D) == A
    ensures MixForm(INV_A, INV_B, INV_C, INV_D) == A
  {
  }

  lemma NamesMixA<T(!new)>(s: Space<T>, k: Letters<T>)
    requires IsSpace(s)
    ensures Names(s, k, MIX_A, MixIn(s, k.a, k.b, k.c, k.d))
  {
    MixRowA();
    NamesLetters(s, k);
    NamesMix(s, k, A, k.a, B, k.b, C, k.c, D, k.d);
  }

  lemma NamesMixB<T(!new)>(s: Space<T>, k: Letters<T>)
    requires IsSpace(s)
    ensures Names(s, k, MIX_B, MixIn(s, k.b, k.c, k.d, k.a))
  {
    MixRowB();
    NamesLetters(s, k);
    NamesMix(s, k, B, k.b, C, k.c, D, k.d, A, k.a);
  }

  lemma NamesMixC<T(!new)>(s: Space<T>, k: Letters<T>)
    requires IsSpace(s)
    ensures Names(s, k, MIX_C, MixIn(s, k.c, k.d, k.a, k.b))
  {
    MixRowC();
    NamesLetters(s, k);
    NamesMix(s, k, C, k.c, D, k.d, A, k.a, B, k.b);
  }

  lemma NamesMixD<T(!new)>(s: Space<T>, k: Letters<T>)
    requires IsSpace(s)
    ensures Names(s, k, MIX_D, MixIn(s, k.d, k.a, k.b, k.c))
  {
    MixRowD();
    NamesLetters(s, k);
    NamesMix(s, k, D, k.d, A, k.a, B, k.b, C, k.c);
  }

  lemma InvMixUndoesMixIn<T(!new)>(s: Space<T>, a: T, b: T, c: T, d: T)
    requires IsSpace(s)
    ensures InvMixIn(s, MixIn(s, a, b, c, d), MixIn(s, b, c, d, a), MixIn(s, c, d, a, b), MixIn(s, d, a, b, c)) == a
  {
    var k := Letters(a, b, c, d);
    NamesMixA(s, k);
    NamesMixB(s, k);
    NamesMixC(s, k);
    NamesMixD(s, k);
    NamesInvMix(s, k, MIX_A, MixIn(s, a, b, c, d), MIX_B, MixIn(s, b, c, d, a),
                MIX_C, MixIn(s, c, d, a, b), MIX_D, MixIn(s, d, a, b, c));
    MatricesCancel();
    NamesLetters(s, k);
  }

  // The rows of the inverse matrix: 14 11 13 9, rotated.
  const INV_A := Form(Row(false, true, true, true), Row(true, true, false, false), Row(true, false, true, false), Row(true, true, true, true), NONE)
  const INV_B := Form(Row(true, false, true, true), Row(false, true, true, false), Row(false, true, false, true), Row(true, true, true, true), NONE)
  const INV_C := Form(Row(true, true, false, true), Row(false, false, true, true), Row(true, false, true, false), Row(true, true, true, true), NONE)
  const INV_D := Form(Row(true, true, true, false), Row(true, false, false, true), Row(false, true, false, true), Row(true, true, true, true), NONE)

  lemma InvRowA()
    ensures InvMixForm(A, B, C, D) == INV_A
  {
  }

  lemma InvRowB()
    ensures InvMixForm(B, C, D, A) == INV_B
  {
  }

  lemma InvRowC()
    ensures InvMixForm(C, D, A, B) == INV_C
  {
  }

  lemma InvRowD()
    ensures InvMixForm(D, A, B, C) == INV_D
  {
  }

  lemma NamesInvA<T(!new)>(s: Space<T>, k: Letters<T>)
    requires IsSpace(s)
    ensures Names(s, k, INV_A, InvMixIn(s, k.a, k.b, k.c, k.d))
  {
    InvRowA();
    NamesLetters(s, k);
    NamesInvMix(s, k, A, k.a, B, k.b, C, k.c, D, k.d);
  }

  lemma NamesInvB<T(!new)>(s: Space<T>, k: Letters<T>)
    requires IsSpace(s)
    ensures Names(s, k, INV_B, InvMixIn(s, k.b, k.c, k.d, k.a))
  {
    InvRowB();
    NamesLetters(s, k);
    NamesInvMix(s, k, B, k.b, C, k.c, D, k.d, A, k.a);
  }

  lemma NamesInvC<T(!new)>(s: Space<T>, k: Letters<T>)
    requires IsSpace(s)
    ensures Names(s, k, INV_C, InvMixIn(s, k.c, k.d, k.a, k.b))
  {
    InvRowC();
    NamesLetters(s, k);
    NamesInvMix(s, k, C, k.c, D, k.d, A, k.a, B, k.b);
  }

  lemma NamesInvD<T(!new)>(s: Space<T>, k: Letters<T>)
    requires IsSpace(s)
    ensures Names(s, k, INV_D, InvMixIn(s, k.d, k.a, k.b, k.c))
  {
    InvRowD();
    NamesLetters(s, k);
    NamesInvMix(s, k, D, k.d, A, k.a, B, k.b, C, k.c);
  }

  lemma MixUndoesInvMixIn<T(!new)>(s: Space<T>, a: T, b: T, c: T, d: T)
    requires IsSpace(s)
    ensures MixIn(s, InvMixIn(s, a, b, c, d), InvMixIn(s, b, c, d, a),
                  InvMixIn(s, c, d, a, b), InvMixIn(s, d, a, b, c)) == a
  {
    var k := Letters(a, b, c, d);
    NamesInvA(s, k);
    NamesInvB(s, k);
    NamesInvC(s, k);
    NamesInvD(s, k);
    NamesMix(s, k, INV_A, InvMixIn(s, a, b, c, d), INV_B, InvMixIn(s, b, c, d, a),
             INV_C, InvMixIn(s, c, d, a, b), INV_D, InvMixIn(s, d, a, b, c));
    MatricesCancel();
    NamesLetters(s, k);
  }

  // The shortcut of the source, with one application of x, is the row 2 3 1 1 of the matrix.
  lemma MixInIsRow<T(!new)>(s: Space<T>, a: T, b: T, c: T, d: T)
    requires IsSpace(s)
    ensures MixIn(s, a, b, c, d) == s.add(s.add(s.add(s.x(a), s.add(b, s.x(b))), c), d)
  {
    var k := Letters(a, b, c, d);
    NamesMixA(s, k);
    NamesLetters(s, k);
    NamesX(s, k, A, a);
    NamesX(s, k, B, b);
    NamesSum(s, k, B, b, Shift(B), s.x(b));
    var f2, v2 := Sum(Shift(A), Sum(B, Shift(B))), s.add(s.x(a), s.add(b, s.x(b)));
    NamesSum(s, k, Shift(A), s.x(a), Sum(B, Shift(B)), s.add(b, s.x(b)));
    NamesSum(s, k, f2, v2, C, c);
    NamesSum(s, k, Sum(f2, C), s.add(v2, c), D, d);
    assert Sum(Sum(f2, C), D) == MIX_A;
  }

  // ---------- In the bytes ----------

  function Add(p: bv8, q: bv8): bv8 {
    p ^ q
  }

  function Bytes(): Space<bv8> {
    Space(Add, 0, XTime)
  }

  lemma AddAssociates(p: bv8, q: bv8, r: bv8)
    ensures Add(Add(p, q), r) == Add(p, Add(q, r))
  {
  }

  lemma AddCommutes(p: bv8, q: bv8)
    ensures Add(p, q) == Add(q, p)
  {
  }

  lemma ExchangeBytes(p: bv8, q: bv8, r: bv8, t: bv8)
    ensures Add(Add(p, q), Add(r, t)) == Add(Add(p, r), Add(q, t))
  {
    AddAssociates(p, q, Add(r, t));
    AddAssociates(q, r, t);
    AddCommutes(q, r);
    AddAssociates(r, q, t);
    AddAssociates(p, r, Add(q, t));
  }

  lemma SumRotates(p: bv8, q: bv8, r: bv8, t: bv8)
    ensures Add(Add(Add(p, q), r), t) == Add(Add(Add(q, r), t), p)
  {
    AddAssociates(p, q, r);
    AddAssociates(p, Add(q, r), t);
    AddCommutes(p, Add(Add(q, r), t));
  }

  lemma AddXTimes(p: bv8, q: bv8)
    ensures XTime(Add(p, q)) == Add(XTime(p), XTime(q))
  {
    XTimeAdds(p, q);
  }

  lemma CancelBytes(p: bv8)
    ensures Add(p, p) == 0 && Add(p, 0) == p && Add(0, p) == p
  {
  }

  lemma BytesIsSpace()
    ensures IsSpace(Bytes())
  {
    forall p: bv8, q: bv8, r: bv8, t: bv8
      ensures ExchangeAt(Bytes(), p, q, r, t)
    {
      ExchangeBytes(p, q, r, t);
    }
    forall p: bv8
      ensures CancelAt(Bytes(), p)
    {
      CancelBytes(p);
    }
    forall p: bv8, q: bv8
      ensures AdditiveAt(Bytes(), p, q)
    {
      AddXTimes(p, q);
    }
  }

  datatype Column = Column(a: bv8, b: bv8, c: bv8, d: bv8)

  function MixByte(a: bv8, b: bv8, c: bv8, d: bv8): bv8 {
    Add(a, Add(XTime(Add(a, b)), Add(Add(Add(a, b), c), d)))
  }

  function InvMixByte(a: bv8, b: bv8, c: bv8, d: bv8): bv8 {
    Add(Add(Add(Multiply(a, 0x0e), Multiply(b, 0x0b)), Multiply(c, 0x0d)), Multiply(d, 0x09))
  }

  function Mix(k: Column): Column {
    Column(MixByte(k.a, k.b, k.c, k.d), MixByte(k.b, k.c, k.d, k.a),
           MixByte(k.c, k.d, k.a, k.b), MixByte(k.d, k.a, k.b, k.c))
  }

  function InvMix(k: Column): Column {
    Column(InvMixByte(k.a, k.b, k.c, k.d), InvMixByte(k.b, k.c, k.d, k.a),
           InvMixByte(k.c, k.d, k.a, k.b), InvMixByte(k.d, k.a, k.b, k.c))
  }

  lemma MixByteIn(a: bv8, b: bv8, c: bv8, d: bv8)
    ensures MixByte(a, b, c, d) == MixIn(Bytes(), a, b, c, d)
  {
  }

  // The five terms of the source's macro, for the four constants it is used with.
  lemma Terms(p: bv8, q: bv8, r: bv8, s: bv8, t: bv8, y: bv8)
    ensures y == 0x0e ==> Sum5(p, q, r, s, t, y) == (q ^ r) ^ s
    ensures y == 0x0b ==> Sum5(p, q, r, s, t, y) == (p ^ q) ^ s
    ensures y == 0x0d ==> Sum5(p, q, r, s, t, y) == (p ^ r) ^ s
    ensures y == 0x09 ==> Sum5(p, q, r, s, t, y) == p ^ s
  {
  }

  function Sum5(p: bv8, q: bv8, r: bv8, s: bv8, t: bv8, y: bv8): bv8 {
    ((y & 1) * p) ^ (((y >> 1) & 1) * q) ^ (((y >> 2) & 1) * r) ^ (((y >> 3) & 1) * s) ^ (((y >> 4) & 1) * t)
  }

  lemma MultiplyTerms(a: bv8, y: bv8) returns (p: bv8, q: bv8, r: bv8, s: bv8)
    ensures p == a && q == XTime(p) && r == XTime(q) && s == XTime(r)
    ensures y == 0x0e ==> Multiply(a, y) == (q ^ r) ^ s
    ensures y == 0x0b ==> Multiply(a, y) == (p ^ q) ^ s
    ensures y == 0x0d ==> Multiply(a, y) == (p ^ r) ^ s
    ensures y == 0x09 ==> Multiply(a, y) == p ^ s
  {
    p, q, r, s := a, XTime(a), XTime(XTime(a)), XTime(XTime(XTime(a)));
    Terms(p, q, r, s, XTime(s), y);
  }

  lemma MultiplyIn14(a: bv8)
    ensures Multiply(a, 0x0e) == Times14(Bytes(), a)
  {
    var p, q, r, s := MultiplyTerms(a, 0x0e);
  }

  lemma MultiplyIn11(a: bv8)
    ensures Multiply(a, 0x0b) == Times11(Bytes(), a)
  {
    var p, q, r, s := MultiplyTerms(a, 0x0b);
  }

  lemma MultiplyIn13(a: bv8)
    ensures Multiply(a, 0x0d) == Times13(Bytes(), a)
  {
    var p, q, r, s := MultiplyTerms(a, 0x0d);
  }

  lemma MultiplyIn9(a: bv8)
    ensures Multiply(a, 0x09) == Times9(Bytes(), a)
  {
    var p, q, r, s := MultiplyTerms(a, 0x09);
  }

  lemma InvMixByteIn(a: bv8, b: bv8, c: bv8, d: bv8)
    ensures InvMixByte(a, b, c, d) == InvMixIn(Bytes(), a, b, c, d)
  {
    MultiplyIn14(a);
    MultiplyIn11(b);
    MultiplyIn13(c);
    MultiplyIn9(d);
  }

  lemma InvMixByteUndoes(a: bv8, b: bv8, c: bv8, d: bv8)
    ensures InvMixByte(MixByte(a, b, c, d), MixByte(b, c, d, a), MixByte(c, d, a, b), MixByte(d, a, b, c)) == a
  {
    BytesIsSpace();
    InvMixUndoesMixIn(Bytes(), a, b, c, d);
    MixByteIn(a, b, c, d);
    MixByteIn(b, c, d, a);
    MixByteIn(c, d, a, b);
    MixByteIn(d, a, b, c);
    InvMixByteIn(MixByte(a, b, c, d), MixByte(b, c, d, a), MixByte(c, d, a, b), MixByte(d, a, b, c));
  }

  lemma MixByteUndoes(a: bv8, b: bv8, c: bv8, d: bv8)
    ensures MixByte(InvMixByte(a, b, c, d), InvMixByte(b, c, d, a), InvMixByte(c, d, a, b), InvMixByte(d, a, b, c)) == a
  {
    BytesIsSpace();
    MixUndoesInvMixIn(Bytes(), a, b, c, d);
    InvMixByteIn(a, b, c, d);
    InvMixByteIn(b, c, d, a);
    InvMixByteIn(c, d, a, b);
    InvMixByteIn(d, a, b, c);
    MixByteIn(InvMixByte(a, b, c, d), InvMixByte(b, c, d, a), InvMixByte(c, d, a, b), InvMixByte(d, a, b, c));
  }

  lemma MixAndInvMixAreInverse(k: Column)
    ensures InvMix(Mix(k)) == k
    ensures Mix(InvMix(k)) == k
  {
    InvMixByteUndoes(k.a, k.b, k.c, k.d);
    InvMixByteUndoes(k.b, k.c, k.d, k.a);
    InvMixByteUndoes(k.c, k.d, k.a, k.b);
    InvMixByteUndoes(k.d, k.a, k.b, k.c);
    MixByteUndoes(k.a, k.b, k.c, k.d);
    MixByteUndoes(k.b, k.c, k.d, k.a);
    MixByteUndoes(k.c, k.d, k.a, k.b);
    MixByteUndoes(k.d, k.a, k.b, k.c);
  }

  // ---------- Both are the matrix products of FIPS 197 ----------

  lemma SmallMultiples(a: bv8)
    ensures FieldProduct(a, 2) == XTime(a)
    ensures FieldProduct(a, 3) == Add(a, XTime(a))
  {
  }

  lemma MixIsMatrixProduct(a: bv8, b: bv8, c: bv8, d: bv8)
    ensures MixByte(a, b, c, d) == Add(Add(Add(FieldProduct(a, 2), FieldProduct(b, 3)), c), d)
  {
    BytesIsSpace();
    MixByteIn(a, b, c, d);
    MixInIsRow(Bytes(), a, b, c, d);
    SmallMultiples(a);
    SmallMultiples(b);
  }

  lemma InvMixIsMatrixProduct(a: bv8, b: bv8, c: bv8, d: bv8)
    ensures InvMixByte(a, b, c, d)
         == Add(Add(Add(FieldProduct(a, 14), FieldProduct(b, 11)), FieldProduct(c, 13)), FieldProduct(d, 9))
  {
    MultiplyIsFieldProduct(a, 14);
    MultiplyIsFieldProduct(b, 11);
    MultiplyIsFieldProduct(c, 13);
    MultiplyIsFieldProduct(d, 9);
  }
}
