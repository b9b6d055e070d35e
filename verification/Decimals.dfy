/**
 * Decimal numbers as printf writes them and scanf reads them back, whole or cut short.
 */
module Decimals {
  import opened Wrappers

  const DIGITS: string := "0123456789"

  function Natural(n: nat): string {
    if n < 10 then [DIGITS[n]] else Natural(n / 10) + [DIGITS[n % 10]]
  }

  function Decimal(n: int): string {
    if n < 0 then ['-'] + Natural(-n) else Natural(n)
  }

  // ---------- Reading ----------

  predicate IsDigit(c: char) {
    '0' <= c <= '9'
  }

  function Digit(c: char): nat
    requires IsDigit(c)
  {
    (c - '0') as int
  }

  predicate AllDigits(s: string) {
    forall i :: 0 <= i < |s| ==> IsDigit(s[i])
  }

  function Value(s: string): nat
    requires AllDigits(s)
  {
    if s == [] then 0 else 10 * Value(s[..|s| - 1]) + Digit(s[|s| - 1])
  }

  function Leading(s: string): (d: string)
    ensures AllDigits(d)
  {
    if s == [] || !IsDigit(s[0]) then [] else [s[0]] + Leading(s[1..])
  }

  function ReadDigits(s: string): Option<int> {
    var d := Leading(s);
    if d == [] then None else Some(Value(d))
  }

  predicate IsBlank(c: char) {
    c == ' ' || '\t' <= c <= '\r'
  }

  // What %d makes of a text: blanks, a sign, digits, and whatever follows.
  function ReadInt(s: string): Option<int> {
    if s == [] then None
    else if IsBlank(s[0]) then ReadInt(s[1..])
    else if s[0] == '-' then (match ReadDigits(s[1..]) case None => None case Some(v) => Some(-v))
    else if s[0] == '+' then ReadDigits(s[1..])
    else ReadDigits(s)
  }

  // ---------- What was written is read back ----------

  lemma DigitOf(d: nat)
    requires d < 10
    ensures IsDigit(DIGITS[d]) && Digit(DIGITS[d]) == d
  {
  }

  lemma {:induction false} LeadingDigits(d: string, rest: string)
    requires AllDigits(d) && (rest == [] || !IsDigit(rest[0]))
    ensures Leading(d + rest) == d
  {
    if d == [] {
      assert d + rest == rest;
    } else {
      assert (d + rest)[1..] == d[1..] + rest;
      LeadingDigits(d[1..], rest);
    }
  }

  lemma {:induction false} NaturalValue(n: nat)
    ensures Natural(n) != [] && AllDigits(Natural(n)) && Value(Natural(n)) == n
  {
    if n < 10 {
      DigitOf(n);
      assert [DIGITS[n]][..0] == [];
    } else {
      NaturalValue(n / 10);
      DigitOf(n % 10);
      assert Natural(n)[..|Natural(n)| - 1] == Natural(n / 10);
    }
  }

  lemma DigitsRead(d: string, rest: string)
    requires d != [] && AllDigits(d) && (rest == [] || !IsDigit(rest[0]))
    ensures ReadInt(d + rest) == ReadDigits(d + rest) == Some(Value(d))
  {
    LeadingDigits(d, rest);
    assert (d + rest)[0] == d[0];
  }

  lemma SignRead(s: string, v: int)
    requires s != [] && s[0] == '-' && ReadDigits(s[1..]) == Some(v)
    ensures ReadInt(s) == Some(-v)
  {
  }

  lemma NegativeRead(d: string, rest: string, v: int)
    requires ReadDigits(d + rest) == Some(v)
    ensures ReadInt(['-'] + d + rest) == Some(-v)
  {
    var s := ['-'] + d + rest;
    assert s[1..] == d + rest;
    SignRead(s, v);
  }

  lemma DecimalRead(n: int, rest: string)
    requires rest == [] || !IsDigit(rest[0])
    ensures ReadInt(Decimal(n) + rest) == Some(n)
  {
    if n < 0 {
      NaturalValue(-n);
      DigitsRead(Natural(-n), rest);
      NegativeRead(Natural(-n), rest, -n);
    } else {
      NaturalValue(n);
      DigitsRead(Natural(n), rest);
    }
  }

  // ---------- Cut short ----------

  lemma {:induction false} PrefixValue(n: nat, j: nat)
    requires 0 < j <= |Natural(n)| && AllDigits(Natural(n)[..j])
    ensures Value(Natural(n)[..j]) <= if j < |Natural(n)| then n / 10 else n
  {
    var d := Natural(n);
    if j == |d| {
      NaturalValue(n);
      assert d[..j] == d;
    } else {
      var e := Natural(n / 10);
      assert d == e + [DIGITS[n % 10]] && d[..j] == e[..j];
      PrefixValue(n / 10, j);
    }
  }

  // The number a line for n reads as when only its first j characters are there.
  lemma CutRead(n: nat, j: nat)
    requires j <= |Natural(n)| + 1
    ensures var r := ReadInt((Natural(n) + ['\n'])[..j]);
            if j == 0 then r == None
            else r.Some? && 0 <= r.value && (if j < |Natural(n)| then r.value <= n / 10 else r.value == n)
  {
    var d := Natural(n);
    NaturalValue(n);
    if 0 < j <= |d| {
      assert (d + ['\n'])[..j] == d[..j] + [];
      DigitsRead(d[..j], []);
      PrefixValue(n, j);
      assert j == |d| ==> d[..j] == d;
    } else if j > |d| {
      assert (d + ['\n'])[..j] == d + ['\n'];
      DigitsRead(d, ['\n']);
    }
  }
}
