/**
 * Sums in a vector space over GF(2) with an additive map x, decided by computing with coefficients.
 *
 * A value built from a, b, c, d by adding and by applying x at most four times is named by a form:
 * for each power of x, which of the letters occur. Adding values adds forms and applying x shifts
 * them, so an identity between such values is an equation between two records of booleans.
 */
module LinearForms {

  datatype Space<!T> = Space(add: (T, T) -> T, zero: T, x: T -> T)

  datatype Letters<T> = Letters(a: T, b: T, c: T, d: T)

  // The laws, one instance at a time, so that using one takes naming the instance.
  ghost predicate ExchangeAt<T>(s: Space<T>, p: T, q: T, r: T, t: T) {
    s.add(s.add(p, q), s.add(r, t)) == s.add(s.add(p, r), s.add(q, t))
  }

  ghost predicate CancelAt<T>(s: Space<T>, p: T) {
    s.add(p, p) == s.zero && s.add(p, s.zero) == p && s.add(s.zero, p) == p
  }

  ghost predicate AdditiveAt<T>(s: Space<T>, p: T, q: T) {
    s.x(s.add(p, q)) == s.add(s.x(p), s.x(q))
  }

  ghost predicate IsSpace<T(!new)>(s: Space<T>) {
    && (forall p, q, r, t :: ExchangeAt(s, p, q, r, t))
    && (forall p :: CancelAt(s, p))
    && (forall p, q :: AdditiveAt(s, p, q))
    && s.x(s.zero) == s.zero
  }

  // ---------- Forms ----------

  datatype Row = Row(a: bool, b: bool, c: bool, d: bool)

  const NONE := Row(false, false, false, false)

  // f.r0 + x * f.r1 + ... + x^4 * f.r4
  datatype Form = Form(r0: Row, r1: Row, r2: Row, r3: Row, r4: Row)

  function SumRow(p: Row, q: Row): Row {
    Row(p.a != q.a, p.b != q.b, p.c != q.c, p.d != q.d)
  }

  function Sum(f: Form, g: Form): Form {
    Form(SumRow(f.r0, g.r0), SumRow(f.r1, g.r1), SumRow(f.r2, g.r2), SumRow(f.r3, g.r3), SumRow(f.r4, g.r4))
  }

  function Shift(f: Form): Form {
    Form(NONE, f.r0, f.r1, f.r2, f.r3)
  }

  // ---------- Their values ----------

  ghost function Pick<T>(s: Space<T>, on: bool, v: T): T {
    if on then v else s.zero
  }

  ghost function RowValue<T>(s: Space<T>, k: Letters<T>, r: Row): T {
    s.add(s.add(Pick(s, r.a, k.a), Pick(s, r.b, k.b)), s.add(Pick(s, r.c, k.c), Pick(s, r.d, k.d)))
  }

  // One step of Horner's rule.
  ghost function Step<T>(s: Space<T>, k: Letters<T>, r: Row, v: T): T {
    s.add(RowValue(s, k, r), s.x(v))
  }

  ghost function Value<T>(s: Space<T>, k: Letters<T>, f: Form): T {
    Step(s, k, f.r0, Step(s, k, f.r1, Step(s, k, f.r2, Step(s, k, f.r3, Step(s, k, f.r4, s.zero)))))
  }

  lemma PickOfSum<T(!new)>(s: Space<T>, p: bool, q: bool, v: T)
    requires IsSpace(s)
    ensures Pick(s, p != q, v) == s.add(Pick(s, p, v), Pick(s, q, v))
  {
    assert CancelAt(s, s.zero);
    assert CancelAt(s, v);
  }

  lemma RowOfSum<T(!new)>(s: Space<T>, k: Letters<T>, p: Row, q: Row)
    requires IsSpace(s)
    ensures RowValue(s, k, SumRow(p, q)) == s.add(RowValue(s, k, p), RowValue(s, k, q))
  {
    PickOfSum(s, p.a, q.a, k.a);
    PickOfSum(s, p.b, q.b, k.b);
    PickOfSum(s, p.c, q.c, k.c);
    PickOfSum(s, p.d, q.d, k.d);
    var pa, pb, pc, pd := Pick(s, p.a, k.a), Pick(s, p.b, k.b), Pick(s, p.c, k.c), Pick(s, p.d, k.d);
    var qa, qb, qc, qd := Pick(s, q.a, k.a), Pick(s, q.b, k.b), Pick(s, q.c, k.c), Pick(s, q.d, k.d);
    assert ExchangeAt(s, pa, qa, pb, qb);
    assert ExchangeAt(s, pc, qc, pd, qd);
    assert ExchangeAt(s, s.add(pa, pb), s.add(qa, qb), s.add(pc, pd), s.add(qc, qd));
  }

  lemma StepOfSum<T(!new)>(s: Space<T>, k: Letters<T>, p: Row, u: T, q: Row, v: T)
    requires IsSpace(s)
    ensures Step(s, k, SumRow(p, q), s.add(u, v)) == s.add(Step(s, k, p, u), Step(s, k, q, v))
  {
    RowOfSum(s, k, p, q);
    assert AdditiveAt(s, u, v);
    assert ExchangeAt(s, RowValue(s, k, p), RowValue(s, k, q), s.x(u), s.x(v));
  }

  // ---------- Naming values by forms ----------

  ghost predicate Names<T>(s: Space<T>, k: Letters<T>, f: Form, v: T) {
    v == Value(s, k, f)
  }

  lemma NamesSum<T(!new)>(s: Space<T>, k: Letters<T>, f: Form, v: T, g: Form, w: T)
    requires IsSpace(s) && Names(s, k, f, v) && Names(s, k, g, w)
    ensures Names(s, k, Sum(f, g), s.add(v, w))
  {
    assert CancelAt(s, s.zero);
    var v4, w4 := Step(s, k, f.r4, s.zero), Step(s, k, g.r4, s.zero);
    StepOfSum(s, k, f.r4, s.zero, g.r4, s.zero);
    var v3, w3 := Step(s, k, f.r3, v4), Step(s, k, g.r3, w4);
    StepOfSum(s, k, f.r3, v4, g.r3, w4);
    var v2, w2 := Step(s, k, f.r2, v3), Step(s, k, g.r2, w3);
    StepOfSum(s, k, f.r2, v3, g.r2, w3);
    var v1, w1 := Step(s, k, f.r1, v2), Step(s, k, g.r1, w2);
    StepOfSum(s, k, f.r1, v2, g.r1, w2);
    StepOfSum(s, k, f.r0, v1, g.r0, w1);
  }

  lemma NamesX<T(!new)>(s: Space<T>, k: Letters<T>, f: Form, v: T)
    requires IsSpace(s) && Names(s, k, f, v) && f.r4 == NONE
    ensures Names(s, k, Shift(f), s.x(v))
  {
    assert CancelAt(s, s.zero);
    assert Step(s, k, NONE, s.zero) == s.zero;
    assert CancelAt(s, s.x(v));
  }

  const ROW_A := Row(true, false, false, false)
  const ROW_B := Row(false, true, false, false)
  const ROW_C := Row(false, false, true, false)
  const ROW_D := Row(false, false, false, true)

  function OfRow(r: Row): Form {
    Form(r, NONE, NONE, NONE, NONE)
  }

  lemma NamesRow<T(!new)>(s: Space<T>, k: Letters<T>, r: Row, v: T)
    requires IsSpace(s)
    ensures Names(s, k, OfRow(r), v) <==> v == RowValue(s, k, r)
  {
    assert CancelAt(s, s.zero);
    assert Step(s, k, NONE, s.zero) == s.zero;
    assert CancelAt(s, RowValue(s, k, r));
  }

  lemma NamesLetters<T(!new)>(s: Space<T>, k: Letters<T>)
    requires IsSpace(s)
    ensures forall v :: Names(s, k, OfRow(ROW_A), v) <==> v == k.a
    ensures Names(s, k, OfRow(ROW_B), k.b) && Names(s, k, OfRow(ROW_C), k.c) && Names(s, k, OfRow(ROW_D), k.d)
  {
    assert CancelAt(s, s.zero);
    assert CancelAt(s, k.a) && CancelAt(s, k.b) && CancelAt(s, k.c) && CancelAt(s, k.d);
    NamesRow(s, k, ROW_A, k.a);
    NamesRow(s, k, ROW_B, k.b);
    NamesRow(s, k, ROW_C, k.c);
    NamesRow(s, k, ROW_D, k.d);
  }
}
