/**
 * The CRC of the serial upload protocol: polynomial 0x1021, initial value 0, most significant bit
 * first (ITU-T V.41).
 *
 * The bit loop is modelled twice: on the 16-bit word of the source, and on the sixteen bits of the
 * register as a polynomial over GF(2). The results are about the polynomials: the register is the
 * remainder of the message modulo the generator, so bursts of up to sixteen bits and odd numbers of
 * flipped bits are always seen, and a message followed by its own CRC leaves zero.
 */
module Crc16 {

  // Coefficients, highest power first.
  type Bits = seq<bool>
  type Register = r: Bits | |r| == 16 witness seq(16, _ => false)

  function Zeros(n: nat): (z: Bits)
    ensures |z| == n && forall i :: 0 <= i < n ==> !z[i]
  {
    seq(n, _ => false)
  }

  function Xor(s: Bits, t: Bits): (u: Bits)
    requires |s| == |t|
    ensures |u| == |s| && forall i :: 0 <= i < |s| ==> u[i] == (s[i] != t[i])
  {
    seq(|s|, i requires 0 <= i < |s| => s[i] != t[i])
  }

  // x^12 + x^5 + 1, the source's 0x1021; the generator has x^16 in front of it.
  function Poly(): Register {
    [false, false, false, true, false, false, false, false, false, false, true, false, false, false, false, true]
  }

  function Generator(): Bits {
    [true] + Poly()
  }

  // ---------- The bit loop ----------

  function Step(r: Register, bit: bool): Register {
    var shifted := r[1..] + [bit];
    if r[0] then Xor(shifted, Poly()) else shifted
  }

  function Feed(r: Register, bits: Bits): Register {
    if bits == [] then r
    else Step(Feed(r, bits[..|bits| - 1]), bits[|bits| - 1])
  }

  // The value the source computes: from zero, over the message and sixteen zeros.
  function Padded(message: Bits): Register {
    Feed(Zeros(16), message + Zeros(16))
  }

  lemma {:induction false} FeedAppend(r: Register, s: Bits, t: Bits)
    ensures Feed(r, s + t) == Feed(Feed(r, s), t)
  {
    if t == [] {
      assert s + t == s;
    } else {
      var n := |t| - 1;
      assert (s + t)[..|s + t| - 1] == s + t[..n];
      FeedAppend(r, s, t[..n]);
    }
  }

  lemma StepAdds(r: Register, b: bool, q: Register, c: bool)
    ensures Step(Xor(r, q), b != c) == Xor(Step(r, b), Step(q, c))
  {
  }

  lemma {:induction false} FeedAdds(r: Register, s: Bits, q: Register, t: Bits)
    requires |s| == |t|
    ensures Feed(Xor(r, q), Xor(s, t)) == Xor(Feed(r, s), Feed(q, t))
  {
    if s != [] {
      var n := |s| - 1;
      assert Xor(s, t)[..n] == Xor(s[..n], t[..n]);
      FeedAdds(r, s[..n], q, t[..n]);
      StepAdds(Feed(r, s[..n]), s[n], Feed(q, t[..n]), t[n]);
    }
  }

  // ---------- The register is the remainder ----------

  // quotient times the generator, by Horner's rule.
  function TimesGenerator(quotient: Bits): (p: Bits)
    ensures |p| == |quotient| + 16
  {
    if quotient == [] then Zeros(16)
    else
      var n := |quotient| - 1;
      Xor(TimesGenerator(quotient[..n]) + [false], Zeros(n) + if quotient[n] then Generator() else Zeros(17))
  }

  ghost predicate DividesAs(bits: Bits, quotient: Bits, r: Register) {
    |quotient| == |bits| && Zeros(16) + bits == Xor(TimesGenerator(quotient), Zeros(|bits|) + r)
  }

  function Quotient(bits: Bits): (q: Bits)
    ensures |q| == |bits|
  {
    if bits == [] then []
    else
      var n := |bits| - 1;
      Quotient(bits[..n]) + [Feed(Zeros(16), bits[..n])[0]]
  }

  // One step takes the generator off the register and the next bit, or nothing.
  lemma StepReduces(r: Register, b: bool)
    ensures r + [b] == Xor(if r[0] then Generator() else Zeros(17), [false] + Step(r, b))
  {
    var g := if r[0] then Generator() else Zeros(17);
    var next := [false] + Step(r, b);
    forall i | 0 <= i < 17 ensures (r + [b])[i] == Xor(g, next)[i] {
      assert i > 0 ==> next[i] == Step(r, b)[i - 1];
    }
  }

  lemma XorAtEnd(p: Bits, n: nat, u: Bits, v: Bits)
    requires |u| == |v| && |p| == n + |u|
    ensures Xor(p, Zeros(n) + Xor(u, v)) == Xor(Xor(p, Zeros(n) + u), Zeros(n) + v)
  {
  }

  lemma AppendBit(p: Bits, n: nat, r: Bits, b: bool)
    requires |p| == n + |r|
    ensures Xor(p, Zeros(n) + r) + [b] == Xor(p + [false], Zeros(n) + (r + [b]))
  {
  }

  lemma DivideStep(bits: Bits, quotient: Bits, r: Register, b: bool)
    requires DividesAs(bits, quotient, r)
    ensures DividesAs(bits + [b], quotient + [r[0]], Step(r, b))
  {
    var n, p := |bits|, TimesGenerator(quotient);
    var tail := if r[0] then Generator() else Zeros(17);
    calc {
      Zeros(16) + (bits + [b]);
      (Zeros(16) + bits) + [b];
      { AppendBit(p, n, r, b); }
      Xor(p + [false], Zeros(n) + (r + [b]));
      { StepReduces(r, b); XorAtEnd(p + [false], n, tail, [false] + Step(r, b)); }
      Xor(Xor(p + [false], Zeros(n) + tail), Zeros(n) + ([false] + Step(r, b)));
      { assert (quotient + [r[0]])[..n] == quotient;
        assert Zeros(n + 1) + Step(r, b) == Zeros(n) + ([false] + Step(r, b)); }
      Xor(TimesGenerator(quotient + [r[0]]), Zeros(n + 1) + Step(r, b));
    }
  }

  lemma {:induction false} RegisterIsRemainder(bits: Bits)
    ensures DividesAs(bits, Quotient(bits), Feed(Zeros(16), bits))
  {
    if bits == [] {
      assert Zeros(16) + bits == Zeros(16) && Zeros(0) + Zeros(16) == Zeros(16);
    } else {
      var n := |bits| - 1;
      RegisterIsRemainder(bits[..n]);
      DivideStep(bits[..n], Quotient(bits[..n]), Feed(Zeros(16), bits[..n]), bits[n]);
      assert bits == bits[..n] + [bits[n]];
    }
  }

  lemma XorOfSums(p: Bits, t: Bits, q: Bits, u: Bits)
    requires |p| == |t| == |q| == |u|
    ensures Xor(Xor(p, q), Xor(t, u)) == Xor(Xor(p, t), Xor(q, u))
  {
  }

  lemma XorTails(n: nat, b: bool, c: bool)
    ensures var g, z := Generator(), Zeros(17);
            Zeros(n) + (if b != c then g else z) == Xor(Zeros(n) + (if b then g else z), Zeros(n) + (if c then g else z))
  {
  }

  lemma {:induction false} TimesGeneratorAdds(q: Bits, q': Bits)
    requires |q| == |q'|
    ensures TimesGenerator(Xor(q, q')) == Xor(TimesGenerator(q), TimesGenerator(q'))
  {
    if q != [] {
      var n := |q| - 1;
      TimesGeneratorAdds(q[..n], q'[..n]);
      assert Xor(q, q')[..n] == Xor(q[..n], q'[..n]);
      var p, p' := TimesGenerator(q[..n]), TimesGenerator(q'[..n]);
      assert Xor(p, p') + [false] == Xor(p + [false], p' + [false]);
      XorTails(n, q[n], q'[n]);
      var g, z := Generator(), Zeros(17);
      XorOfSums(p + [false], Zeros(n) + (if q[n] then g else z), p' + [false], Zeros(n) + (if q'[n] then g else z));
    }
  }

  // The generator has a leading one, so a product starts where its quotient does.
  lemma {:induction false} ProductStartsWithQuotient(q: Bits, i: nat)
    requires i < |q| && q[..i] == Zeros(i)
    ensures TimesGenerator(q)[i] == q[i]
  {
    var n := |q| - 1;
    if i < n {
      assert q[..n][..i] == q[..i];
      ProductStartsWithQuotient(q[..n], i);
    } else {
      ProductOfZeros(n);
      assert q[..n] == Zeros(n);
    }
  }

  lemma {:induction false} ProductOfZeros(n: nat)
    ensures TimesGenerator(Zeros(n)) == Zeros(n + 16)
  {
    if n > 0 {
      ProductOfZeros(n - 1);
      assert Zeros(n)[..n - 1] == Zeros(n - 1);
    }
  }

  lemma {:induction false} SmallProductIsZero(q: Bits, i: nat)
    requires i <= |q| && TimesGenerator(q)[..|q|] == Zeros(|q|)
    ensures q[..i] == Zeros(i)
  {
    if i > 0 {
      SmallProductIsZero(q, i - 1);
      ProductStartsWithQuotient(q, i - 1);
      assert TimesGenerator(q)[i - 1] == TimesGenerator(q)[..|q|][i - 1];
      assert q[..i] == q[..i - 1] + [q[i - 1]];
    }
  }

  lemma XorOfSame(p: Bits, p': Bits, z: Bits, z': Bits)
    requires |p| == |p'| == |z| == |z'| && Xor(p, z) == Xor(p', z')
    ensures Xor(p, p') == Xor(z, z')
  {
    forall i | 0 <= i < |p| ensures Xor(p, p')[i] == Xor(z, z')[i] {
      assert Xor(p, z)[i] == Xor(p', z')[i];
    }
  }

  // Division with remainder has one result, so the register is the remainder.
  lemma RemainderUnique(bits: Bits, q: Bits, r: Register, q': Bits, r': Register)
    requires DividesAs(bits, q, r) && DividesAs(bits, q', r')
    ensures q == q' && r == r'
  {
    var n := |bits|;
    var p, p', d := TimesGenerator(q), TimesGenerator(q'), Xor(q, q');
    XorOfSame(p, p', Zeros(n) + r, Zeros(n) + r');
    TimesGeneratorAdds(q, q');
    assert TimesGenerator(d)[..n] == Zeros(n);
    SmallProductIsZero(d, n);
    assert d == d[..n] == Zeros(n);
    ProductOfZeros(n);
    forall i | 0 <= i < n ensures q[i] == q'[i] { assert !d[i]; }
    forall i | 0 <= i < 16 ensures r[i] == r'[i] {
      assert !Zeros(n + 16)[n + i] && Xor(Zeros(n) + r, Zeros(n) + r')[n + i] == (r[i] != r'[i]);
    }
  }

  // ---------- Error detection ----------

  lemma {:induction false} FeedZeros(n: nat)
    ensures Feed(Zeros(16), Zeros(n)) == Zeros(16)
  {
    if n > 0 {
      FeedZeros(n - 1);
      assert Zeros(n)[..n - 1] == Zeros(n - 1);
    }
  }

  // The first sixteen bits are shifted in without a division.
  lemma {:induction false} FeedShiftsIn(w: Bits)
    requires |w| <= 16
    ensures Feed(Zeros(16), w) == Zeros(16 - |w|) + w
  {
    if w != [] {
      var n := |w| - 1;
      FeedShiftsIn(w[..n]);
      assert w == w[..n] + [w[n]];
    }
  }

  lemma ZeroStepInjective(r: Register)
    requires Step(r, false) == Zeros(16)
    ensures r == Zeros(16)
  {
    assert Step(r, false)[15] == r[0];
    forall i | 0 < i < 16 ensures !r[i] { assert Step(r, false)[i - 1] == r[i]; }
  }

  lemma {:induction false} NonzeroStays(r: Register, n: nat)
    requires r != Zeros(16)
    ensures Feed(r, Zeros(n)) != Zeros(16)
  {
    if n > 0 {
      NonzeroStays(r, n - 1);
      assert Zeros(n)[..n - 1] == Zeros(n - 1);
      if Feed(r, Zeros(n)) == Zeros(16) {
        ZeroStepInjective(Feed(r, Zeros(n - 1)));
      }
    }
  }

  // s and t differ, and only among the sixteen bits from position p on.
  ghost predicate DifferInBurst(s: Bits, t: Bits, p: nat) {
    |s| == |t| && s != t && forall i :: 0 <= i < |s| && !(p <= i < p + 16) ==> s[i] == t[i]
  }

  lemma NonzeroRegister(w: Bits, i: nat)
    requires |w| <= 16 && i < |w| && w[i]
    ensures Zeros(16 - |w|) + w != Zeros(16)
  {
    assert (Zeros(16 - |w|) + w)[16 - |w| + i];
  }

  lemma NonzeroBurst(z: nat, w: Bits, i: nat, n: nat)
    requires |w| <= 16 && i < |w| && w[i]
    ensures Feed(Zeros(16), Zeros(z) + w + Zeros(n)) != Zeros(16)
  {
    FeedAppend(Zeros(16), Zeros(z) + w, Zeros(n));
    FeedAppend(Zeros(16), Zeros(z), w);
    FeedZeros(z);
    FeedShiftsIn(w);
    NonzeroRegister(w, i);
    NonzeroStays(Zeros(16 - |w|) + w, n);
  }

  lemma BurstShape(s: Bits, t: Bits, p: nat) returns (w: Bits, i: nat)
    requires DifferInBurst(s, t, p)
    ensures |w| <= 16 && p + |w| <= |s| && i < |w| && w[i]
    ensures Xor(s, t) == Zeros(p) + w + Zeros(|s| - p - |w|)
  {
    var k :| 0 <= k < |s| && s[k] != t[k];
    var q := if p + 16 <= |s| then p + 16 else |s|;
    w, i := Xor(s, t)[p..q], k - p;
  }

  // Every burst of at most sixteen bits is seen, wherever it falls and however many zeros follow.
  lemma BurstDetected(s: Bits, t: Bits, p: nat, pad: nat)
    requires DifferInBurst(s, t, p)
    ensures Feed(Zeros(16), s + Zeros(pad)) != Feed(Zeros(16), t + Zeros(pad))
  {
    var w, i := BurstShape(s, t, p);
    var n := |s| - p - |w|;
    assert Xor(s + Zeros(pad), t + Zeros(pad)) == Zeros(p) + w + Zeros(n + pad);
    NonzeroBurst(p, w, i, n + pad);
    DifferenceSeen(s + Zeros(pad), t + Zeros(pad));
  }

  lemma DifferenceSeen(s: Bits, t: Bits)
    requires |s| == |t| && Feed(Zeros(16), Xor(s, t)) != Zeros(16)
    ensures Feed(Zeros(16), s) != Feed(Zeros(16), t)
  {
    FeedAdds(Zeros(16), s, Zeros(16), t);
    assert Xor(Zeros(16), Zeros(16)) == Zeros(16);
    var r := Feed(Zeros(16), s);
    assert Xor(r, r) == Zeros(16);
  }

  // ---------- Parity ----------

  function Odd(s: Bits): bool {
    s != [] && (s[|s| - 1] != Odd(s[..|s| - 1]))
  }

  lemma {:induction false} OddAppend(s: Bits, t: Bits)
    ensures Odd(s + t) == (Odd(s) != Odd(t))
  {
    if t == [] {
      assert s + t == s;
    } else {
      var n := |t| - 1;
      assert (s + t)[..|s| + n] == s + t[..n];
      OddAppend(s, t[..n]);
    }
  }

  lemma {:induction false} OddXor(s: Bits, t: Bits)
    requires |s| == |t|
    ensures Odd(Xor(s, t)) == (Odd(s) != Odd(t))
  {
    if s != [] {
      var n := |s| - 1;
      assert Xor(s, t)[..n] == Xor(s[..n], t[..n]);
      OddXor(s[..n], t[..n]);
    }
  }

  lemma PolyIsOdd()
    ensures Odd(Poly())
  {
    var z := Zeros(6);
    var p := Poly();
    assert p == [false, false, false] + [true] + z + [true] + [false, false, false, false] + [true];
    OddZeros(6);
    OddZeros(3);
    OddZeros(4);
    assert [false, false, false] == Zeros(3) && [false, false, false, false] == Zeros(4);
    OddAppend(Zeros(3), [true]);
    OddAppend(Zeros(3) + [true], z);
    OddAppend(Zeros(3) + [true] + z, [true]);
    OddAppend(Zeros(3) + [true] + z + [true], Zeros(4));
  }

  lemma {:induction false} OddZeros(n: nat)
    ensures !Odd(Zeros(n))
  {
    if n > 0 {
      OddZeros(n - 1);
      assert Zeros(n)[..n - 1] == Zeros(n - 1);
    }
  }

  // The generator has an even number of terms, so parity goes through the register.
  lemma StepKeepsParity(r: Register, b: bool)
    ensures Odd(Step(r, b)) == (Odd(r) != b)
  {
    OddAppend(r[1..], [b]);
    OddAppend([r[0]], r[1..]);
    assert r == [r[0]] + r[1..];
    PolyIsOdd();
    OddXor(r[1..] + [b], Poly());
  }

  lemma {:induction false} FeedKeepsParity(bits: Bits)
    ensures Odd(Feed(Zeros(16), bits)) == Odd(bits)
  {
    if bits == [] {
      OddZeros(16);
    } else {
      var n := |bits| - 1;
      FeedKeepsParity(bits[..n]);
      StepKeepsParity(Feed(Zeros(16), bits[..n]), bits[n]);
    }
  }

  // Every odd number of flipped bits is seen.
  lemma OddErrorDetected(s: Bits, t: Bits)
    requires |s| == |t| && Odd(Xor(s, t))
    ensures Padded(s) != Padded(t)
  {
    OddZeros(16);
    OddAppend(s, Zeros(16));
    OddAppend(t, Zeros(16));
    OddXor(s, t);
    FeedKeepsParity(s + Zeros(16));
    FeedKeepsParity(t + Zeros(16));
  }

  // ---------- A message followed by its CRC ----------

  lemma AppendedCrcLeavesZero(message: Bits)
    ensures Padded(message + Padded(message)) == Zeros(16)
  {
    var c := Padded(message);
    FeedAdds(Zeros(16), message + Zeros(16), Zeros(16), Zeros(|message|) + c);
    assert Xor(Zeros(16), Zeros(16)) == Zeros(16);
    assert Xor(message + Zeros(16), Zeros(|message|) + c) == message + c;
    FeedAppend(Zeros(16), Zeros(|message|), c);
    FeedZeros(|message|);
    FeedShiftsIn(c);
    assert Zeros(0) + c == c && Xor(c, c) == Zeros(16);
    FeedAppend(Zeros(16), message + c, Zeros(16));
    FeedZeros(16);
  }
}
