/**
 * The text of a scan: how entries are written, and why searching it for the key that begins an entry
 * finds the entries and nothing else.
 */
module WifiText {
  import opened Wrappers

  type Text = seq<char>

  const KEY: Text := ['{', '"', 's', 's', 'i', 'd', '"', ':']

  predicate KeyAt(t: Text, i: nat) {
    i + 8 <= |t| && t[i..i + 8] == KEY
  }

  // The first place of the key, as strstr finds it.
  function FindKey(t: Text): (r: Option<nat>)
    ensures r.Some? ==> KeyAt(t, r.value)
  {
    if |t| < 8 then None
    else if KeyAt(t, 0) then Some(0)
    else match FindKey(t[1..])
      case None => None
      case Some(i) => assert t[1..][i..i + 8] == t[i + 1..i + 9]; Some(i + 1)
  }

  // Every opening brace is followed by something that does not begin a key.
  ghost predicate Quiet(t: Text) {
    forall i :: 0 <= i < |t| && t[i] == '{' ==> i + 3 < |t| && t[i..i + 4] != KEY[..4]
  }

  // The key stands at the start of t, and nowhere in what is before it.
  lemma {:induction false} FindAfterQuiet(junk: Text, t: Text)
    requires Quiet(junk) && KeyAt(t, 0)
    ensures FindKey(junk + t) == Some(|junk|)
    decreases |junk|
  {
    if junk == [] {
      assert junk + t == t;
    } else {
      var all := junk + t;
      assert all[1..] == junk[1..] + t;
      QuietRest(junk);
      QuietNoKey(junk, t);
      FindAfterQuiet(junk[1..], t);
    }
  }

  lemma QuietRest(junk: Text)
    requires Quiet(junk) && junk != []
    ensures Quiet(junk[1..])
  {
    forall i | 0 <= i < |junk[1..]| && junk[1..][i] == '{'
      ensures i + 3 < |junk[1..]| && junk[1..][i..i + 4] != KEY[..4]
    {
      assert junk[i + 1] == '{' && junk[1..][i..i + 4] == junk[i + 1..i + 5];
    }
  }

  lemma QuietNoKey(junk: Text, t: Text)
    requires Quiet(junk) && junk != []
    ensures !KeyAt(junk + t, 0)
  {
    var all := junk + t;
    assert junk[0] == all[0] && (|junk| > 3 && |all| >= 8 ==> junk[0..4] == all[0..8][..4]);
  }

  lemma {:induction false} NoKeyInQuiet(junk: Text)
    requires Quiet(junk)
    ensures FindKey(junk) == None
  {
    if |junk| >= 8 {
      QuietNoKey(junk, []);
      assert junk + [] == junk;
      QuietRest(junk);
      NoKeyInQuiet(junk[1..]);
    }
  }

  lemma QuietAppend(s: Text, t: Text)
    requires Quiet(s) && Quiet(t)
    ensures Quiet(s + t)
  {
    var u := s + t;
    forall i | 0 <= i < |u| && u[i] == '{' ensures i + 3 < |u| && u[i..i + 4] != KEY[..4] {
      if i < |s| {
        assert u[i..i + 4] == s[i..i + 4];
      } else {
        assert u[i] == t[i - |s|];
        assert u[i..i + 4] == t[i - |s|..i - |s| + 4];
      }
    }
  }

  lemma QuietWithout(t: Text)
    requires '{' !in t
    ensures Quiet(t)
  {
    forall i | 0 <= i < |t| ensures t[i] != '{' {
      assert t[i] in t;
    }
  }

  // ---------- A list of entries ----------

  // It begins with the key, ends with a brace, and holds no key besides.
  ghost predicate EntryOk(e: Text) {
    |e| > 8 && KeyAt(e, 0) && e[|e| - 1] == '}' && Quiet(e[8..])
  }

  ghost predicate EntriesOk(es: seq<Text>) {
    forall i :: 0 <= i < |es| ==> EntryOk(es[i])
  }

  const END: Text := [']', '}', '\n']

  // The entries from some entry on, to the end of the text.
  function TailOf(es: seq<Text>): Text
    decreases |es|, 1
  {
    if es == [] then END else es[0] + After(es)
  }

  // What follows the first entry.
  function After(es: seq<Text>): Text
    requires es != []
    decreases |es|, 0
  {
    if |es| == 1 then END else [','] + TailOf(es[1..])
  }

  function CountKeys(t: Text): nat
    decreases |t|
  {
    match FindKey(t)
    case None => 0
    case Some(i) => 1 + CountKeys(t[i + 8..])
  }

  lemma QuietEnd()
    ensures Quiet(END)
  {
  }

  lemma QuietAfter(e: Text)
    requires EntryOk(e)
    ensures Quiet(e[8..] + [',']) && Quiet(e[8..] + END)
  {
    QuietWithout([',']);
    QuietEnd();
    QuietAppend(e[8..], [',']);
    QuietAppend(e[8..], END);
  }

  lemma Behind(e: Text, rest: Text)
    requires |e| > 8 && KeyAt(e, 0)
    ensures KeyAt(e + rest, 0) && (e + rest)[8..] == e[8..] + rest
  {
    assert (e + rest)[0..8] == e[0..8];
  }

  lemma FirstOk(es: seq<Text>)
    requires EntriesOk(es) && es != []
    ensures EntryOk(es[0])
  {
  }

  lemma RestOk(es: seq<Text>)
    requires EntriesOk(es) && es != []
    ensures EntriesOk(es[1..])
  {
  }

  lemma FindFirst(junk: Text, es: seq<Text>)
    requires Quiet(junk) && EntriesOk(es) && es != []
    ensures FindKey(junk + TailOf(es)) == Some(|junk|)
  {
    FirstOk(es);
    Behind(es[0], After(es));
    FindAfterQuiet(junk, TailOf(es));
  }

  // What follows the key of the first entry, up to the next.
  lemma BeforeSecond(es: seq<Text>)
    requires EntriesOk(es) && |es| > 1
    ensures |es[0]| > 8 && |TailOf(es)| > 8 && TailOf(es)[8..] == es[0][8..] + [','] + TailOf(es[1..])
    ensures Quiet(es[0][8..] + [','])
  {
    FirstOk(es);
    Behind(es[0], After(es));
    QuietAfter(es[0]);
    assert es[0][8..] + After(es) == es[0][8..] + [','] + TailOf(es[1..]);
  }

  lemma FindSecond(es: seq<Text>)
    requires EntriesOk(es) && |es| > 1
    ensures |es[0]| > 8 && |TailOf(es)| > 8 && FindKey(TailOf(es)[8..]) == Some(|es[0]| + 1 - 8)
  {
    BeforeSecond(es);
    RestOk(es);
    FindFirst(es[0][8..] + [','], es[1..]);
  }

  // The key is there once for every entry.
  lemma {:induction false} OneKeyPerEntry(junk: Text, es: seq<Text>)
    requires Quiet(junk) && EntriesOk(es)
    ensures CountKeys(junk + TailOf(es)) == |es|
    decreases |es|
  {
    if es == [] {
      QuietEnd();
      QuietAppend(junk, END);
      NoKeyInQuiet(junk + END);
    } else {
      var t := junk + TailOf(es);
      FindFirst(junk, es);
      FirstOk(es);
      Behind(es[0], After(es));
      assert t[|junk| + 8..] == TailOf(es)[8..];
      RestOk(es);
      QuietAfter(es[0]);
      if |es| == 1 {
        NoKeyInQuiet(es[0][8..] + END);
      } else {
        assert es[0][8..] + After(es) == es[0][8..] + [','] + TailOf(es[1..]);
        OneKeyPerEntry(es[0][8..] + [','], es[1..]);
      }
    }
  }
}
