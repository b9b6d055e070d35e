/**
 * The first pass of the source's base64_decode, which checks the text and counts its symbols, and the
 * size it asks for.
 */
module Base64Scan {
  import opened Base64

  predicate IsBlank(c: bv8) {
    c == CR || c == LF || c == SPACE
  }

  // The text without its white space.
  function Strip(s: seq<bv8>): (t: seq<bv8>)
    ensures |t| <= |s|
  {
    if s == [] then []
    else Strip(s[..|s| - 1]) + if IsBlank(s[|s| - 1]) then [] else [s[|s| - 1]]
  }

  lemma {:induction false} StripAppend(s: seq<bv8>, t: seq<bv8>)
    ensures Strip(s + t) == Strip(s) + Strip(t)
  {
    if t == [] {
      assert s + t == s;
    } else {
      var n := |t| - 1;
      assert (s + t)[..|s| + n] == s + t[..n];
      StripAppend(s, t[..n]);
    }
  }

  // A carriage return comes before a line feed, and spaces only before a line end or at the very end.
  predicate BlankAllowed(src: seq<bv8>, i: nat)
    requires i < |src|
  {
    && (src[i] == CR ==> i + 1 < |src| && src[i + 1] == LF)
    && (src[i] == SPACE ==> i + 1 == |src| || IsBlank(src[i + 1]))
  }

  ghost predicate BlanksAllowed(src: seq<bv8>, n: nat)
    requires n <= |src|
  {
    forall i: nat :: i < n ==> BlankAllowed(src, i)
  }

  ghost predicate Accepts(src: seq<bv8>) {
    BlanksAllowed(src, |src|) && WellPadded(Strip(src))
  }

  // A well-padded text has no white space to take out, and is accepted as it stands.
  lemma PlainTextAccepted(t: seq<bv8>)
    requires WellPadded(t)
    ensures Strip(t) == t && Accepts(t)
  {
    StripsToItself(t);
    forall i: nat | i < |t| ensures BlankAllowed(t, i) {
      SymbolNotBlank(t[i]);
    }
  }

  lemma SymbolNotBlank(c: bv8)
    requires IsSymbol(c)
    ensures !IsBlank(c)
  {
  }

  lemma {:induction false} StripsToItself(t: seq<bv8>)
    requires Symbols(t)
    ensures Strip(t) == t
  {
    if t != [] {
      var n := |t| - 1;
      StripsToItself(t[..n]);
      SymbolNotBlank(t[n]);
      assert t == t[..n] + [t[n]];
    }
  }

  // ---------- First pass ----------

  // What the first pass knows when it has read i bytes.
  ghost predicate Scanned(src: seq<bv8>, i: nat, n: nat, j: nat) {
    && i <= |src| && BlanksAllowed(src, i)
    && WellPadded(Strip(src[..i])) && n == |Strip(src[..i])| && j == Pads(Strip(src[..i]))
  }

  lemma StripNext(src: seq<bv8>, i: nat)
    requires i < |src|
    ensures Strip(src[..i + 1]) == Strip(src[..i]) + if IsBlank(src[i]) then [] else [src[i]]
  {
    assert src[..i + 1][..i] == src[..i];
  }

  lemma BadPrefix(src: seq<bv8>, i: nat)
    requires i <= |src| && !WellPadded(Strip(src[..i]))
    ensures !Accepts(src)
  {
    if WellPadded(Strip(src)) {
      StripAppend(src[..i], src[i..]);
      assert src == src[..i] + src[i..];
      WellPaddedHalves(Strip(src[..i]), Strip(src[i..]));
      assert false;
    }
  }

  lemma WellPaddedHalves(s: seq<bv8>, t: seq<bv8>)
    requires WellPadded(s + t)
    ensures WellPadded(s) && WellPadded(t)
  {
    WellPaddedParts(s + t, |s|);
    assert (s + t)[..|s|] == s && (s + t)[|s|..] == t;
  }

  // When one more symbol keeps a text well padded.
  lemma WellPaddedNext(t: seq<bv8>, c: bv8)
    requires WellPadded(t)
    ensures WellPadded(t + [c]) <==> if c == PAD then Pads(t) + 1 <= 2 else IsDigit(c) && Pads(t) == 0
    ensures Pads(t + [c]) == Pads(t) + if c == PAD then 1 else 0
  {
    var u := t + [c];
    assert u[..|t|] == t && u[|t|] == c;
    if Pads(t) > 0 {
      var i := SomePad(t);
      assert u[i] == PAD;
    } else {
      NoneIsPad(t);
    }
  }

  lemma {:induction false} NoneIsPad(t: seq<bv8>)
    requires Pads(t) == 0
    ensures forall i :: 0 <= i < |t| ==> t[i] != PAD
  {
    if t != [] {
      NoneIsPad(t[..|t| - 1]);
    }
  }

  lemma ScanBlank(src: seq<bv8>, i: nat, n: nat, j: nat)
    requires Scanned(src, i, n, j) && i < |src| && IsBlank(src[i])
    ensures BlankAllowed(src, i) ==> Scanned(src, i + 1, n, j)
    ensures !BlankAllowed(src, i) ==> !Accepts(src)
  {
    StripNext(src, i);
    assert Strip(src[..i]) + [] == Strip(src[..i]);
  }

  lemma ScanSymbol(src: seq<bv8>, i: nat, n: nat, j: nat)
    requires Scanned(src, i, n, j) && i < |src| && !IsBlank(src[i])
    ensures var c := src[i];
            var good := if c == PAD then j + 1 <= 2 else IsDigit(c) && j == 0;
            if good then Scanned(src, i + 1, n + 1, j + if c == PAD then 1 else 0) else !Accepts(src)
  {
    StripNext(src, i);
    WellPaddedNext(Strip(src[..i]), src[i]);
    if !WellPadded(Strip(src[..i + 1])) {
      BadPrefix(src, i + 1);
    }
  }

  // The same after x spaces, the last of which is still to be judged by what follows it.
  ghost predicate ScannedSpaces(src: seq<bv8>, i: nat, n: nat, j: nat, x: nat) {
    if x == 0 then Scanned(src, i, n, j)
    else 0 < i <= |src| && src[i - 1] == SPACE && Scanned(src, i - 1, n, j)
  }

  lemma JudgeSpace(src: seq<bv8>, i: nat, n: nat, j: nat, x: nat)
    requires ScannedSpaces(src, i, n, j, x)
    ensures x == 0 || i == |src| || IsBlank(src[i]) ==> Scanned(src, i, n, j)
    ensures x != 0 && i < |src| && !IsBlank(src[i]) ==> !Accepts(src)
  {
    if x > 0 {
      ScanBlank(src, i - 1, n, j);
    }
  }

  lemma SpaceNext(src: seq<bv8>, i: nat, n: nat, j: nat, x: nat)
    requires ScannedSpaces(src, i, n, j, x) && i < |src| && src[i] == SPACE
    ensures ScannedSpaces(src, i + 1, n, j, x + 1)
  {
    JudgeSpace(src, i, n, j, x);
  }

  // The source's checks of one byte that is not white space.
  method CheckSymbol(c: bv8, j: nat) returns (ok: bool, pads: nat)
    ensures ok <==> if c == PAD then j + 1 <= 2 else IsDigit(c) && j == 0
    ensures ok ==> pads == j + if c == PAD then 1 else 0
  {
    pads := j;
    if c == PAD {
      pads := pads + 1;
      if pads > 2 {
        return false, pads;
      }
    }
    if c > 127 || DecMap(c) == 127 {
      return false, pads;
    }
    if DecMap(c) < 64 && pads != 0 {
      return false, pads;
    }
    ok := true;
  }

  method SkipSpaces(src: seq<bv8>, start: nat, ghost n: nat, ghost j: nat) returns (i: nat, x: nat)
    requires Scanned(src, start, n, j)
    ensures start <= i <= |src| && (i < |src| ==> src[i] != SPACE) && ScannedSpaces(src, i, n, j, x)
  {
    i, x := start, 0;
    while i < |src| && src[i] == SPACE
      invariant start <= i <= |src| && ScannedSpaces(src, i, n, j, x)
    {
      SpaceNext(src, i, n, j, x);
      i, x := i + 1, x + 1;
    }
  }

  // The checks of one byte behind x spaces.
  method CheckByte(src: seq<bv8>, i: nat, x: nat, n: nat, j: nat) returns (ok: bool, n': nat, j': nat)
    requires i < |src| && src[i] != SPACE && ScannedSpaces(src, i, n, j, x)
    ensures if ok then Scanned(src, i + 1, n', j') else !Accepts(src)
  {
    ok, n', j' := true, n, j;
    JudgeSpace(src, i, n, j, x);
    if IsBlank(src[i]) {
      ScanBlank(src, i, n, j);
    } else if x == 0 {
      ScanSymbol(src, i, n, j);
    }
    if |src| - i >= 2 && src[i] == CR && src[i + 1] == LF {
      return;
    }
    if src[i] == LF {
      return;
    }
    if x != 0 {
      return false, n, j;
    }
    ok, j' := CheckSymbol(src[i], j);
    n' := n + 1;
  }

  method FirstPass(src: seq<bv8>) returns (ok: bool, n: nat, j: nat)
    ensures ok <==> Accepts(src)
    ensures ok ==> n == |Strip(src)| && j == Pads(Strip(src))
  {
    n, j := 0, 0;
    var i := 0;
    while i < |src|
      invariant Scanned(src, i, n, j)
    {
      var x;
      i, x := SkipSpaces(src, i, n, j);
      if i == |src| {
        JudgeSpace(src, i, n, j, x);
        break;
      }
      ok, n, j := CheckByte(src, i, x, n, j);
      if !ok {
        return;
      }
      i := i + 1;
    }
    assert src[..|src|] == src;
    ok := true;
  }

  // ---------- The size it asks for ----------

  // n * 6 / 8 rounded up, as the source computes it, less the pads.
  function SizeNeeded(n: nat, j: nat): int {
    6 * (n / 8) + (6 * (n % 8) + 7) / 8 - j
  }

  // Three bytes a group and one for each symbol of a group that is not finished, less the pads; it
  // does not go below zero, and it is never less than what the second pass writes.
  lemma SizeIsEnough(t: seq<bv8>)
    requires WellPadded(t)
    ensures var n, p := |t|, Pads(t);
            SizeNeeded(n, p) == 3 * (n / 4) + n % 4 - p && |Decode(t)| <= SizeNeeded(n, p)
    ensures SizeNeeded(|t|, Pads(t)) == |Decode(t)| <==> Pads(t) >= |t| % 4
  {
    var n, r := |t|, |t| % 8;
    DecodedLength(t);
    assert n == 8 * (n / 8) + r;
    assert n / 4 == 2 * (n / 8) + r / 4 && n % 4 == r % 4;
    assert (6 * r + 7) / 8 == 3 * (r / 4) + r % 4;
  }

  lemma SizeCovers(t: seq<bv8>)
    requires WellPadded(t)
    ensures |Decode(t)| <= SizeNeeded(|t|, Pads(t))
  {
    SizeIsEnough(t);
  }

  // ---------- Line ends ----------

  lemma Stripped(s: seq<bv8>, e: seq<bv8>, t: seq<bv8>)
    requires Strip(s) == s && Strip(t) == t && Strip(e) == []
    ensures Strip(s + e + t) == s + t
  {
    StripAppend(s + e, t);
    StripAppend(s, e);
    assert s + [] == s;
  }

  predicate LineEnd(e: seq<bv8>) {
    e == [10] || e == [13, 10] || e == [32, 10]
  }

  lemma LineEndStripped(e: seq<bv8>)
    requires LineEnd(e)
    ensures Strip(e) == []
  {
    assert e[..|e| - 1] == [] || e[..|e| - 1] == [13] || e[..|e| - 1] == [32];
    assert [13 as bv8][..0] == [] && [32 as bv8][..0] == [];
  }

  lemma LineEndAllowed(s: seq<bv8>, e: seq<bv8>, t: seq<bv8>, i: nat)
    requires LineEnd(e) && |s| <= i < |s| + |e|
    ensures BlankAllowed(s + e + t, i)
  {
    var u := s + e + t;
    assert u[i] == e[i - |s|];
    if |e| == 2 && i == |s| {
      assert u[i + 1] == e[1];
    }
  }

  lemma SymbolAllowed(u: seq<bv8>, i: nat)
    requires i < |u| && IsSymbol(u[i])
    ensures BlankAllowed(u, i)
  {
    SymbolNotBlank(u[i]);
  }

  lemma BrokenAllowed(s: seq<bv8>, e: seq<bv8>, t: seq<bv8>)
    requires Symbols(s) && Symbols(t) && LineEnd(e)
    ensures BlanksAllowed(s + e + t, |s + e + t|)
  {
    var u := s + e + t;
    forall i: nat | i < |u| ensures BlankAllowed(u, i) {
      if i < |s| {
        assert u[i] == s[i];
        SymbolAllowed(u, i);
      } else if i < |s| + |e| {
        LineEndAllowed(s, e, t, i);
      } else {
        assert u[i] == t[i - |s| - |e|];
        SymbolAllowed(u, i);
      }
    }
  }

  // Between symbols, a line end is a line feed, alone or behind a carriage return or a space, and is passed over;
  // a carriage return or a space alone makes the text invalid.
  lemma LineEnds(s: seq<bv8>, e: seq<bv8>, t: seq<bv8>)
    requires Symbols(s) && Symbols(t) && LineEnd(e)
    ensures Strip(s + e + t) == s + t && (Accepts(s + e + t) <==> WellPadded(s + t))
  {
    LineEndStripped(e);
    StripsToItself(s);
    StripsToItself(t);
    Stripped(s, e, t);
    BrokenAllowed(s, e, t);
  }

  lemma LoneBlank(s: seq<bv8>, c: bv8, t: seq<bv8>)
    requires t != [] && IsSymbol(t[0]) && (c == 13 || c == 32)
    ensures !Accepts(s + [c] + t)
  {
    SymbolNotBlank(t[0]);
    var u := s + [c] + t;
    assert u[|s|] == c && u[|s| + 1] == t[0];
    assert !BlankAllowed(u, |s|);
  }
}
