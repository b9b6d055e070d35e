/**
 * The printer of scan results, in the short form the Bluetooth side reads.
 */
module WifiScan {
  import opened Wrappers
  import opened Decimals
  import opened WifiText

  datatype Security = WpaPsk | Wpa2Psk | Wep

  datatype Network = Network(ssid: Text, security: seq<Security>, channel: int, signal: int)

  // ---------- Escaping ----------

  predicate Special(c: char) {
    c == '\\' || c == '"'
  }

  function EscapeChar(c: char): Text {
    if Special(c) then ['\\', c] else [c]
  }

  function Escape(s: Text): Text {
    if s == [] then [] else Escape(s[..|s| - 1]) + EscapeChar(s[|s| - 1])
  }

  lemma {:induction false} EscapeFirst(s: Text)
    requires s != []
    ensures Escape(s) == EscapeChar(s[0]) + Escape(s[1..])
  {
    var n := |s| - 1;
    if n > 0 {
      EscapeFirst(s[..n]);
      assert s[..n][1..] == s[1..n] && s[1..][..n - 1] == s[1..n];
    }
  }

  lemma {:induction false} EscapedLength(s: Text)
    ensures |s| <= |Escape(s)| <= 2 * |s|
  {
    if s != [] {
      EscapedLength(s[..|s| - 1]);
    }
  }

  // A quote in escaped text comes after a backslash.
  lemma {:induction false} QuotesEscaped(s: Text)
    ensures forall i :: 0 <= i < |Escape(s)| && Escape(s)[i] == '"' ==> i > 0 && Escape(s)[i - 1] == '\\'
  {
    if s != [] {
      QuotesEscaped(s[..|s| - 1]);
    }
  }

  // How a reader of JSON takes a string: up to the first quote that is not escaped.
  function ReadString(t: Text): Option<(Text, Text)>
    decreases |t|
  {
    if t == [] then None
    else if t[0] == '"' then Some(([], t[1..]))
    else if t[0] == '\\' && |t| > 1 then Prepend(t[1], ReadString(t[2..]))
    else Prepend(t[0], ReadString(t[1..]))
  }

  function Prepend(c: char, r: Option<(Text, Text)>): Option<(Text, Text)> {
    match r
    case None => None
    case Some(p) => Some(([c] + p.0, p.1))
  }

  // Whatever the name of a network, a reader gets it back and goes on behind the closing quote.
  lemma {:induction false} EscapeRoundTrip(s: Text, rest: Text)
    ensures ReadString(Escape(s) + ['"'] + rest) == Some((s, rest))
    decreases |s|
  {
    var t := Escape(s) + ['"'] + rest;
    if s == [] {
      assert t[1..] == rest;
    } else {
      EscapeFirst(s);
      EscapeRoundTrip(s[1..], rest);
      var u := Escape(s[1..]) + ['"'] + rest;
      assert t == EscapeChar(s[0]) + u;
      assert if Special(s[0]) then t[2..] == u else t[1..] == u;
      assert [s[0]] + s[1..] == s;
    }
  }

  // ---------- Entries ----------

  const SECURITY: Text := "\", \"security\":\""
  const CHANNEL: Text := "\", \"channel\":"
  const SIGNAL: Text := ", \"signal\":"

  // One item instead of the list; the strongest wins.
  function SecurityText(security: seq<Security>): Text {
    if Wpa2Psk in security then "WPA2-PSK"
    else if WpaPsk in security then "WPA-PSK"
    else if Wep in security then "WEP"
    else "None"
  }

  // WPA2 is told before WPA, WPA before WEP, and nothing is told as None.
  lemma SecurityTold(security: seq<Security>)
    ensures SecurityText(security) == "WPA2-PSK" <==> Wpa2Psk in security
    ensures SecurityText(security) == "WPA-PSK" <==> WpaPsk in security && Wpa2Psk !in security
    ensures SecurityText(security) == "WEP" <==> Wep in security && WpaPsk !in security && Wpa2Psk !in security
    ensures SecurityText(security) == "None" <==> security == []
  {
    var a, b, c, d := "WPA2-PSK", "WPA-PSK", "WEP", "None";
    assert |c| < |d| < |b| < |a|;
    if security != [] {
      assert security[0] in security;
      match security[0]
      case Wpa2Psk =>
      case WpaPsk =>
      case Wep =>
    }
  }

  lemma DigitPlain(d: nat)
    requires d < 10
    ensures DIGITS[d] != '{'
  {
  }

  lemma {:induction false} NaturalPlain(n: nat)
    ensures '{' !in Natural(n)
  {
    if n < 10 {
      DigitPlain(n);
    } else {
      NaturalPlain(n / 10);
      DigitPlain(n % 10);
    }
  }

  lemma DecimalPlain(n: int)
    ensures '{' !in Decimal(n)
  {
    NaturalPlain(if n < 0 then -n else n);
  }

  lemma ShortDecimal(n: int)
    requires 0 <= n < 1000
    ensures |Decimal(n)| <= 3
  {
    if n >= 10 {
      assert |Natural(n / 10)| <= 2;
    }
  }

  function Numbers(n: Network): Text {
    CHANNEL + Decimal(n.channel) + (SIGNAL + Decimal(n.signal) + ['}'])
  }

  // What follows the name.
  function Rest(n: Network): Text {
    SECURITY + SecurityText(n.security) + Numbers(n)
  }

  function Entry(n: Network): Text {
    KEY + (['"'] + Escape(n.ssid) + Rest(n))
  }

  lemma NumbersPlain(n: Network)
    ensures '{' !in Numbers(n)
  {
    DecimalPlain(n.channel);
    DecimalPlain(n.signal);
  }

  lemma RestPlain(n: Network)
    ensures '{' !in Rest(n) && |Rest(n)| > 3 && Rest(n)[0] == '"' && Rest(n)[1] == ','
  {
    NumbersPlain(n);
  }

  // An escaped name, with its closing quote and a comma after it, cannot hide a key.
  lemma EscapedIsQuiet(s: Text, rest: Text)
    requires '{' !in rest && |rest| > 3 && rest[0] == '"' && rest[1] == ','
    ensures Quiet(Escape(s) + rest)
  {
    var e := Escape(s);
    var u := e + rest;
    forall i | |e| <= i < |u| ensures u[i] != '{' {
      assert rest[i - |e|] in rest;
    }
    forall i | 0 <= i < |u| && u[i] == '{' ensures i + 3 < |u| && u[i..i + 4] != KEY[..4] {
      EscapedBrace(s, rest, i);
    }
  }

  lemma EscapedBrace(s: Text, rest: Text, i: nat)
    requires |rest| > 3 && rest[0] == '"' && rest[1] == ',' && i < |Escape(s)| && Escape(s)[i] == '{'
    ensures var u := Escape(s) + rest; i + 3 < |u| && u[i..i + 4] != KEY[..4]
  {
    QuotesEscaped(s);
    var u := Escape(s) + rest;
    var v := u[i..i + 4];
    assert v[1] == u[i + 1] && v[2] == u[i + 2] && KEY[..4][1] == '"' && KEY[..4][2] == 's';
  }

  lemma EntryIsOk(n: Network)
    ensures EntryOk(Entry(n))
  {
    RestPlain(n);
    RestEnds(n);
    EscapedIsQuiet(n.ssid, Rest(n));
    QuietWithout(['"']);
    QuietAppend(['"'], Escape(n.ssid) + Rest(n));
    WithKey(['"'], Escape(n.ssid), Rest(n));
  }

  lemma RestEnds(n: Network)
    ensures Rest(n)[|Rest(n)| - 1] == '}'
  {
  }

  lemma WithKey(quote: Text, s: Text, rest: Text)
    requires rest != [] && rest[|rest| - 1] == '}' && Quiet(quote + (s + rest))
    ensures EntryOk(KEY + (quote + s + rest))
  {
    var body := quote + s + rest;
    assert body == quote + (s + rest);
    assert (KEY + body)[0..8] == KEY && (KEY + body)[8..] == body;
  }

  // The names, channels and strengths that occur give entries that fit a 128-byte buffer.
  lemma EntryFits(n: Network)
    requires |n.ssid| <= 32 && 0 <= n.channel < 1000 && 0 <= n.signal <= 100
    ensures |Entry(n)| <= 127
  {
    EscapedLength(n.ssid);
    ShortDecimal(n.channel);
    ShortDecimal(n.signal);
  }

  // ---------- The printer ----------

  const HEAD: Text := "{\"scanresults\":\n["

  const HIDDEN: Text := "\\x00"

  // Networks without a name are left out.
  predicate Shown(n: Network) {
    !(HIDDEN <= n.ssid)
  }

  function Entries(ns: seq<Network>): seq<Text> {
    if ns == [] then []
    else Entries(ns[..|ns| - 1]) + if Shown(ns[|ns| - 1]) then [Entry(ns[|ns| - 1])] else []
  }

  lemma {:induction false} EntriesAreOk(ns: seq<Network>)
    ensures EntriesOk(Entries(ns))
  {
    if ns != [] {
      EntriesAreOk(ns[..|ns| - 1]);
      EntryIsOk(ns[|ns| - 1]);
    }
  }

  function Joined(es: seq<Text>): Text {
    if es == [] then []
    else Joined(es[..|es| - 1]) + (if |es| > 1 then [','] else []) + es[|es| - 1]
  }

  lemma JoinedNext(before: Text, es: seq<Text>, e: Text)
    ensures before + Joined(es + [e]) == before + Joined(es) + (if es == [] then [] else [',']) + e
  {
    assert (es + [e])[..|es|] == es;
  }

  lemma {:induction false} JoinedFirst(es: seq<Text>)
    requires |es| > 1
    ensures Joined(es) == es[0] + ([','] + Joined(es[1..]))
  {
    var n := |es| - 1;
    assert es[1..][..n - 1] == es[1..n];
    if n > 1 {
      JoinedFirst(es[..n]);
      assert es[..n][1..] == es[1..n];
    } else {
      assert es[..1] == [es[0]] && Joined([es[0]]) == es[0] by { assert [es[0]][..0] == []; }
    }
  }

  lemma JoinedOne(es: seq<Text>)
    requires |es| == 1
    ensures Joined(es) == es[0]
  {
    assert es[..0] == [];
  }

  lemma EndOfJoined(e: Text, rest: Text, tail: Text)
    requires rest + END == tail
    ensures e + ([','] + rest) + END == e + ([','] + tail)
  {
  }

  lemma {:induction false} JoinedIsTail(es: seq<Text>)
    ensures Joined(es) + END == TailOf(es)
    decreases |es|
  {
    if |es| == 1 {
      JoinedOne(es);
    } else if |es| > 1 {
      JoinedFirst(es);
      JoinedIsTail(es[1..]);
      EndOfJoined(es[0], Joined(es[1..]), TailOf(es[1..]));
    }
  }

  method PutEscaped(escaped: array<char>, j: nat, c: char) returns (next: nat)
    requires j + |EscapeChar(c)| < escaped.Length
    modifies escaped
    ensures next == j + |EscapeChar(c)| && escaped[..next] == old(escaped[..j]) + EscapeChar(c)
  {
    next := j;
    if c == '\\' || c == '"' {
      escaped[next] := '\\';
      next := next + 1;
    }
    escaped[next] := c;
    next := next + 1;
  }

  lemma EscapeNext(s: Text, i: nat)
    requires i < |s|
    ensures Escape(s[..i + 1]) == Escape(s[..i]) + EscapeChar(s[i]) && |Escape(s[..i + 1])| <= |Escape(s)|
  {
    assert s[..i + 1][..i] == s[..i];
    EscapePrefix(s, i + 1);
  }

  // The escaping loop, into the printer's 65-byte buffer, as far as that has room.
  method EscapeInto(escaped: array<char>, ssid: Text) returns (j: nat, fits: bool)
    requires escaped.Length == 65
    modifies escaped
    ensures fits <==> |Escape(ssid)| <= 64
    ensures j <= 64 && (fits ==> escaped[..j] == Escape(ssid))
  {
    j := 0;
    for i := 0 to |ssid|
      invariant j <= 64 && escaped[..j] == Escape(ssid[..i])
    {
      EscapeNext(ssid, i);
      if j + |EscapeChar(ssid[i])| > 64 {
        return j, false;
      }
      j := PutEscaped(escaped, j, ssid[i]);
    }
    assert ssid[..|ssid|] == ssid;
    return j, true;
  }

  lemma {:induction false} EscapePrefix(s: Text, i: nat)
    requires i <= |s|
    ensures |Escape(s[..i])| <= |Escape(s)|
    decreases |s| - i
  {
    if i < |s| {
      EscapePrefix(s, i + 1);
      assert s[..i + 1][..i] == s[..i];
    } else {
      assert s[..i] == s;
    }
  }

  method Format(n: Network) returns (e: Text, fits: bool)
    ensures fits <==> |Escape(n.ssid)| <= 64
    ensures fits ==> e == Entry(n)
  {
    var escaped := new char[65](_ => '\0');
    var j;
    j, fits := EscapeInto(escaped, n.ssid);
    e := KEY + (['"'] + escaped[..j] + Rest(n));
  }

  // The printer has room for the name, if it prints it at all.
  predicate Printable(n: Network) {
    Shown(n) ==> |Escape(n.ssid)| <= 64
  }

  class Printer {
    var out: Text
    var first: bool
    ghost var shown: seq<Text>

    ghost predicate Valid()
      reads this
    {
      out == HEAD + Joined(shown) && first == (shown == [])
    }

    constructor ()
      ensures Valid() && shown == []
    {
      out, first, shown := HEAD, true, [];
    }

    method Print(n: Network) returns (fits: bool)
      requires Valid()
      modifies this
      ensures fits <==> Printable(n)
      ensures fits ==> Valid() && shown == old(shown) + if Shown(n) then [Entry(n)] else []
    {
      if HIDDEN <= n.ssid {
        return true;
      }
      JoinedNext(HEAD, shown, Entry(n));
      if first {
        first := false;
      } else {
        out := out + [','];
      }
      var e;
      e, fits := Format(n);
      out := out + e;
      shown := shown + [Entry(n)];
    }
  }

  lemma EntriesNext(networks: seq<Network>, i: nat)
    requires i < |networks|
    ensures Entries(networks[..i + 1])
         == Entries(networks[..i]) + if Shown(networks[i]) then [Entry(networks[i])] else []
  {
    assert networks[..i + 1][..i] == networks[..i];
  }

  // The first i networks fit and are shown.
  ghost predicate PrintedTo(shown: seq<Text>, networks: seq<Network>, i: nat) {
    i <= |networks| && shown == Entries(networks[..i]) && forall k :: 0 <= k < i ==> Printable(networks[k])
  }

  method PrintNext(p: Printer, networks: seq<Network>, i: nat) returns (fits: bool)
    requires p.Valid() && i < |networks| && PrintedTo(p.shown, networks, i)
    modifies p
    ensures fits <==> Printable(networks[i])
    ensures fits ==> p.Valid() && PrintedTo(p.shown, networks, i + 1)
  {
    EntriesNext(networks, i);
    fits := p.Print(networks[i]);
  }

  method PrintAll(p: Printer, networks: seq<Network>) returns (fits: bool)
    requires p.Valid() && p.shown == []
    modifies p
    ensures fits <==> forall i :: 0 <= i < |networks| ==> Printable(networks[i])
    ensures fits ==> p.Valid() && p.shown == Entries(networks)
  {
    for i := 0 to |networks|
      invariant p.Valid() && PrintedTo(p.shown, networks, i)
    {
      fits := PrintNext(p, networks, i);
      if !fits {
        return false;
      }
    }
    assert networks[..|networks|] == networks;
    return true;
  }

  // A whole scan: the head, the networks, the end.
  method Scan(networks: seq<Network>) returns (text: Text, fits: bool)
    ensures fits <==> forall i :: 0 <= i < |networks| ==> Printable(networks[i])
    ensures fits ==> text == HEAD + TailOf(Entries(networks)) && EntriesOk(Entries(networks))
    ensures fits ==> CountKeys(text) == |Entries(networks)|
  {
    var p := new Printer();
    fits := PrintAll(p, networks);
    text := p.out + END;
    if fits {
      ScanText(networks);
    }
  }

  lemma ScanText(networks: seq<Network>)
    ensures var es := Entries(networks);
            && HEAD + Joined(es) + END == HEAD + TailOf(es) && EntriesOk(es)
            && CountKeys(HEAD + TailOf(es)) == |es|
  {
    EntriesAreOk(networks);
    QuietHead();
    OneKeyPerEntry(HEAD, Entries(networks));
    HeadAndTail(Entries(networks));
  }

  lemma HeadAndTail(es: seq<Text>)
    ensures HEAD + Joined(es) + END == HEAD + TailOf(es)
  {
    JoinedIsTail(es);
    assert HEAD + Joined(es) + END == HEAD + (Joined(es) + END);
  }

  lemma QuietHead()
    ensures Quiet(HEAD)
  {
    assert HEAD[0..4] != KEY[..4] by { assert HEAD[0..4][3] == 'c' && KEY[..4][3] == 's'; }
  }
}
