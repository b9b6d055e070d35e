/**
 * Arithmetic in GF(2^8), the field of AES (FIPS 197, section 4.2): bytes are polynomials over GF(2)
 * of degree below 8, multiplied modulo m(x) = x^8 + x^4 + x^3 + x + 1.
 *
 * `XTime` and `Multiply` are the source's two primitives. `FieldProduct` is the product of any two
 * bytes by Horner's rule, and `ProductIsRemainder` ties it to the polynomial product itself.
 */
module GaloisField {

  function XTime(x: bv8): bv8 {
    (x << 1) ^ (((x >> 7) & 1) * 0x1b)
  }

  // The source's macro: it looks at the five low bits of y only.
  function Multiply(x: bv8, y: bv8): bv8 {
    ((y & 1) * x)
    ^ (((y >> 1) & 1) * XTime(x))
    ^ (((y >> 2) & 1) * XTime(XTime(x)))
    ^ (((y >> 3) & 1) * XTime(XTime(XTime(x))))
    ^ (((y >> 4) & 1) * XTime(XTime(XTime(XTime(x)))))
  }

  lemma XTimeAdds(a: bv8, b: bv8)
    ensures XTime(a ^ b) == XTime(a) ^ XTime(b)
  {
  }

  // ---------- The field product, by Horner's rule over the bits of y, on 16-bit words ----------

  function Bit(x: bv16, bit: bv16): bv16 {
    if bit != 0 then x else 0
  }

  // XTime on the low byte of a word.
  function WideXTime(x: bv16): bv16 {
    ((x << 1) & 0xff) ^ (((x >> 7) & 1) * 0x1b)
  }

  function NextRemainder(r: bv16, t: bv16): bv16 {
    WideXTime(r) ^ t
  }

  function WideProduct(x: bv16, y: bv16): bv16 {
    var r7 := Bit(x, y & 0x80);
    var r6 := NextRemainder(r7, Bit(x, y & 0x40));
    var r5 := NextRemainder(r6, Bit(x, y & 0x20));
    var r4 := NextRemainder(r5, Bit(x, y & 0x10));
    var r3 := NextRemainder(r4, Bit(x, y & 0x08));
    var r2 := NextRemainder(r3, Bit(x, y & 0x04));
    var r1 := NextRemainder(r2, Bit(x, y & 0x02));
    NextRemainder(r1, Bit(x, y & 0x01))
  }

  function FieldProduct(x: bv8, y: bv8): bv8 {
    (WideProduct(x as bv16, y as bv16) & 0xff) as bv8
  }

  lemma MultiplyBelow4(x: bv8, y: bv8)
    requires y < 4
    ensures Multiply(x, y) == FieldProduct(x, y)
  {
  }

  lemma MultiplyBelow8(x: bv8, y: bv8)
    requires 4 <= y < 8
    ensures Multiply(x, y) == FieldProduct(x, y)
  {
  }

  lemma MultiplyBelow12(x: bv8, y: bv8)
    requires 8 <= y < 12
    ensures Multiply(x, y) == FieldProduct(x, y)
  {
  }

  lemma MultiplyBelow16(x: bv8, y: bv8)
    requires 12 <= y < 16
    ensures Multiply(x, y) == FieldProduct(x, y)
  {
  }

  lemma MultiplyBelow20(x: bv8, y: bv8)
    requires 16 <= y < 20
    ensures Multiply(x, y) == FieldProduct(x, y)
  {
  }

  lemma MultiplyBelow24(x: bv8, y: bv8)
    requires 20 <= y < 24
    ensures Multiply(x, y) == FieldProduct(x, y)
  {
  }

  lemma MultiplyBelow28(x: bv8, y: bv8)
    requires 24 <= y < 28
    ensures Multiply(x, y) == FieldProduct(x, y)
  {
  }

  lemma MultiplyBelow32(x: bv8, y: bv8)
    requires 28 <= y < 32
    ensures Multiply(x, y) == FieldProduct(x, y)
  {
  }

  lemma MultiplyIsFieldProduct(x: bv8, y: bv8)
    requires y < 32
    ensures Multiply(x, y) == FieldProduct(x, y)
  {
    if y < 4 {
      MultiplyBelow4(x, y);
    } else if y < 8 {
      MultiplyBelow8(x, y);
    } else if y < 12 {
      MultiplyBelow12(x, y);
    } else if y < 16 {
      MultiplyBelow16(x, y);
    } else if y < 20 {
      MultiplyBelow20(x, y);
    } else if y < 24 {
      MultiplyBelow24(x, y);
    } else if y < 28 {
      MultiplyBelow28(x, y);
    } else {
      MultiplyBelow32(x, y);
    }
  }

  // ---------- It is the remainder of the polynomial product ----------

  // q times the modulus m(x).
  function TimesModulus(q: bv16): bv16 {
    (q << 8) ^ (q << 4) ^ (q << 3) ^ (q << 1) ^ q
  }

  // p = q * m + r with deg r < 8.
  predicate DividesAs(p: bv16, q: bv16, r: bv16) {
    r < 0x100 && q < 0x80 && p == r ^ TimesModulus(q)
  }

  lemma DivisionUnique(p: bv16, q: bv16, r: bv16, q': bv16, r': bv16)
    requires DividesAs(p, q, r) && DividesAs(p, q', r')
    ensures q == q' && r == r'
  {
  }

  function NextPolynomial(p: bv16, t: bv16): bv16 {
    (p << 1) ^ t
  }

  // The product in GF(2)[x], of degree at most 14.
  function PolynomialProduct(x: bv16, y: bv16): bv16 {
    var p7 := Bit(x, y & 0x80);
    var p6 := NextPolynomial(p7, Bit(x, y & 0x40));
    var p5 := NextPolynomial(p6, Bit(x, y & 0x20));
    var p4 := NextPolynomial(p5, Bit(x, y & 0x10));
    var p3 := NextPolynomial(p4, Bit(x, y & 0x08));
    var p2 := NextPolynomial(p3, Bit(x, y & 0x04));
    var p1 := NextPolynomial(p2, Bit(x, y & 0x02));
    NextPolynomial(p1, Bit(x, y & 0x01))
  }

  function NextQuotient(q: bv16, r: bv16): bv16 {
    (q << 1) ^ ((r >> 7) & 1)
  }

  lemma HornerSum(p: bv16, q: bv16, r: bv16, t: bv16)
    requires r < 0x100 && p == r ^ TimesModulus(q)
    ensures (p << 1) ^ t == WideXTime(r) ^ t ^ TimesModulus((q << 1) ^ ((r >> 7) & 1))
  {
  }

  lemma NextBounds(q: bv16, r: bv16, t: bv16, bound: bv16)
    requires r < 0x100 && t < 0x100 && q < bound <= 0x40
    ensures NextQuotient(q, r) < 2 * bound && NextRemainder(r, t) < 0x100
  {
  }

  // One Horner step of the polynomial product is one Horner step of quotient and remainder.
  lemma HornerStep(p: bv16, q: bv16, r: bv16, t: bv16, bound: bv16)
    requires DividesAs(p, q, r) && q < bound <= 0x40 && t < 0x100
    ensures DividesAs(NextPolynomial(p, t), NextQuotient(q, r), NextRemainder(r, t))
    ensures NextQuotient(q, r) < 2 * bound
  {
    HornerSum(p, q, r, t);
    NextBounds(q, r, t, bound);
  }

  lemma ThreeSteps(p: bv16, q: bv16, r: bv16, ta: bv16, tb: bv16, tc: bv16, bound: bv16) returns (qc: bv16)
    requires DividesAs(p, q, r) && q < bound <= 0x10 && ta < 0x100 && tb < 0x100 && tc < 0x100
    ensures DividesAs(NextPolynomial(NextPolynomial(NextPolynomial(p, ta), tb), tc), qc,
                      NextRemainder(NextRemainder(NextRemainder(r, ta), tb), tc))
    ensures qc < 8 * bound
  {
    var pa, qa, ra := NextPolynomial(p, ta), NextQuotient(q, r), NextRemainder(r, ta);
    HornerStep(p, q, r, ta, bound);
    var pb, qb, rb := NextPolynomial(pa, tb), NextQuotient(qa, ra), NextRemainder(ra, tb);
    HornerStep(pa, qa, ra, tb, 2 * bound);
    qc := NextQuotient(qb, rb);
    HornerStep(pb, qb, rb, tc, 4 * bound);
  }

  // For bytes x and y, the field product is the remainder of their polynomial product.
  lemma ProductIsRemainder(x: bv16, y: bv16) returns (q: bv16)
    requires x < 0x100 && y < 0x100
    ensures DividesAs(PolynomialProduct(x, y), q, WideProduct(x, y))
  {
    var r7 := Bit(x, y & 0x80);
    var t6, t5, t4, t3 := Bit(x, y & 0x40), Bit(x, y & 0x20), Bit(x, y & 0x10), Bit(x, y & 0x08);
    var t2, t1, t0 := Bit(x, y & 0x04), Bit(x, y & 0x02), Bit(x, y & 0x01);
    var p4, r4 := NextPolynomial(NextPolynomial(NextPolynomial(r7, t6), t5), t4),
                  NextRemainder(NextRemainder(NextRemainder(r7, t6), t5), t4);
    var q4 := ThreeSteps(r7, 0, r7, t6, t5, t4, 1);
    var p1, r1 := NextPolynomial(NextPolynomial(NextPolynomial(p4, t3), t2), t1),
                  NextRemainder(NextRemainder(NextRemainder(r4, t3), t2), t1);
    var q1 := ThreeSteps(p4, q4, r4, t3, t2, t1, 8);
    HornerStep(p1, q1, r1, t0, 0x40);
    q := NextQuotient(q1, r1);
  }
}
