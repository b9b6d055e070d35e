/**
 * A reader of the pages, which knows a page only as text: it takes the mark off the end, cuts what is left at the
 * keys, and ends each entry at the last closing brace before the next key.
 */
module WifiReader {
  import opened Wrappers
  import opened WifiText
  import opened WifiScan
  import opened WifiPages

  // There are more pages to come.
  predicate Marked(t: Text) {
    |t| >= 17 && t[|t| - 17..] == "], \"more\":\"true\"}"
  }

  function Body(t: Text): Text {
    if Marked(t) then t[..|t| - 17] else if |t| >= 3 && t[|t| - 3..] == "]}\n" then t[..|t| - 3] else t
  }

  // Up to the last closing brace.
  function ToBrace(t: Text): Text {
    if t == [] || t[|t| - 1] == '}' then t else ToBrace(t[..|t| - 1])
  }

  function Cut(t: Text): seq<Text>
    decreases |t|
  {
    match FindKey(t)
    case None => []
    case Some(i) =>
      var u := t[i..];
      match FindKey(u[8..])
      case None => [u]
      case Some(j) => [ToBrace(u[..8 + j])] + Cut(u[8 + j..])
  }

  function ReadEntries(t: Text): seq<Text> {
    Cut(Body(t))
  }

  // All the entries on a number of pages.
  function ReadAll(pages: seq<Text>): seq<Text> {
    if pages == [] then [] else ReadAll(pages[..|pages| - 1]) + ReadEntries(pages[|pages| - 1])
  }

  // ---------- Cutting ----------

  lemma CutNothing(junk: Text)
    requires Quiet(junk)
    ensures Cut(junk) == []
  {
    NoKeyInQuiet(junk);
  }

  lemma CutOne(junk: Text, e: Text)
    requires Quiet(junk) && EntryOk(e)
    ensures Cut(junk + e) == [e]
  {
    FindAfterQuiet(junk, e);
    assert (junk + e)[|junk|..] == e;
    NoKeyInQuiet(e[8..]);
  }

  lemma BraceBefore(e: Text, sep: Text)
    requires e != [] && e[|e| - 1] == '}' && (sep == "," || sep == ", ")
    ensures ToBrace(e + sep) == e
  {
    var t := e + [','];
    assert t[..|t| - 1] == e && t[|t| - 1] == ',' && ToBrace(e) == e;
    assert ToBrace(t) == ToBrace(t[..|t| - 1]);
    if sep == ", " {
      var u := e + sep;
      assert u[..|u| - 1] == t && u[|u| - 1] == ' ';
      assert ToBrace(u) == ToBrace(u[..|u| - 1]);
    }
  }

  lemma ThreeParts(e: Text, sep: Text, rest: Text)
    requires |e| > 8
    ensures var u := e + sep + rest;
            && u == e + (sep + rest) && u[8..] == e[8..] + sep + rest
            && u[..|e| + |sep|] == e + sep && u[|e| + |sep|..] == rest
  {
  }

  lemma SecondAt(e: Text, sep: Text, rest: Text)
    requires EntryOk(e) && (sep == "," || sep == ", ") && KeyAt(rest, 0)
    ensures var u := e + sep + rest;
            KeyAt(u, 0) && FindKey(u[8..]) == Some(|e| + |sep| - 8) && u[..|e| + |sep|] == e + sep && u[|e| + |sep|..] == rest
  {
    ThreeParts(e, sep, rest);
    Behind(e, sep + rest);
    QuietWithout(sep);
    QuietAppend(e[8..], sep);
    FindAfterQuiet(e[8..] + sep, rest);
  }

  lemma CutFirst(junk: Text, e: Text, sep: Text, rest: Text)
    requires Quiet(junk) && EntryOk(e) && (sep == "," || sep == ", ") && KeyAt(rest, 0)
    ensures Cut(junk + (e + sep + rest)) == [e] + Cut(rest)
  {
    var u := e + sep + rest;
    SecondAt(e, sep, rest);
    FindAfterQuiet(junk, u);
    assert (junk + u)[|junk|..] == u;
    BraceBefore(e, sep);
  }

  lemma {:induction false} CutJoined(junk: Text, es: seq<Text>)
    requires Quiet(junk) && EntriesOk(es)
    ensures Cut(junk + Joined(es)) == es
    decreases |es|
  {
    if es == [] {
      assert junk + Joined(es) == junk;
      CutNothing(junk);
    } else if |es| == 1 {
      JoinedOne(es);
      CutOne(junk, es[0]);
    } else {
      JoinedFirst(es);
      RestOk(es);
      var rest := Joined(es[1..]);
      JoinedKey(es[1..]);
      assert junk + Joined(es) == junk + (es[0] + [','] + rest);
      CutFirst(junk, es[0], [','], rest);
      assert [] + rest == rest;
      CutJoined([], es[1..]);
      assert [es[0]] + es[1..] == es;
    }
  }

  lemma JoinedKey(es: seq<Text>)
    requires EntriesOk(es) && es != []
    ensures KeyAt(Joined(es), 0)
  {
    if |es| == 1 {
      JoinedOne(es);
    } else {
      JoinedFirst(es);
      Behind(es[0], [','] + Joined(es[1..]));
    }
  }

  // ---------- Pages ----------

  lemma QuietPageHead()
    ensures Quiet(PAGE_HEAD)
  {
    assert PAGE_HEAD[0..4][3] == 'c' && KEY[..4][3] == 's';
  }

  lemma ReadLast(head: Text, es: seq<Text>)
    requires Quiet(head) && EntriesOk(es)
    ensures ReadEntries(head + TailOf(es)) == es && !Marked(head + TailOf(es))
  {
    JoinedIsTail(es);
    var body := head + Joined(es);
    assert head + TailOf(es) == body + END;
    EndedBy(body);
    CutJoined(head, es);
  }

  lemma EndedBy(body: Text)
    ensures !Marked(body + END) && Body(body + END) == body
  {
    var t := body + END;
    assert t[|t| - 1] == '\n' && t[|t| - 3..] == END;
    if |t| >= 17 {
      assert t[|t| - 17..][16] == '\n';
    }
  }

  lemma MarkedBy(body: Text)
    ensures Marked(body + MORE) && Body(body + MORE) == body
  {
    var t := body + MORE;
    assert t[|t| - 17..] == MORE;
  }

  lemma ReadFull(a: Text, b: Text)
    requires EntryOk(a) && EntryOk(b)
    ensures ReadEntries(Page(a, b)) == [a, b] && Marked(Page(a, b))
  {
    var body := PAGE_HEAD + (a + AND + b);
    assert Page(a, b) == body + MORE;
    MarkedBy(body);
    QuietPageHead();
    CutFirst(PAGE_HEAD, a, AND, b);
    assert [] + b == b;
    CutOne([], b);
  }

  lemma TextRead(es: seq<Text>, k: nat)
    requires EntriesOk(es) && 2 * k <= |es|
    ensures ReadEntries(PageText(es, k)) == OnPage(es, k) && (Marked(PageText(es, k)) <==> 2 * k + 2 < |es|)
  {
    var on := OnPage(es, k);
    if 2 * k + 2 < |es| {
      ReadFull(on[0], on[1]);
      assert on == [on[0], on[1]];
    } else {
      QuietPageHead();
      QuietHead();
      ReadLast(if |es| <= 2 then HEAD else PAGE_HEAD, on);
    }
  }

  // A page read back gives its entries, and is marked exactly when it is not the last.
  lemma PageRead(es: seq<Text>, k: nat)
    requires EntriesOk(es) && k < |Pages(es)|
    ensures ReadEntries(Pages(es)[k]) == OnPage(es, k)
    ensures Marked(Pages(es)[k]) <==> k + 1 < |Pages(es)|
  {
    PagesCover(es);
    TextRead(es, k);
  }

  lemma ReadNext(pages: seq<Text>, m: nat)
    requires m < |pages|
    ensures ReadAll(pages[..m + 1]) == ReadAll(pages[..m]) + ReadEntries(pages[m])
  {
    assert pages[..m + 1][..m] == pages[..m];
  }

  lemma {:induction false} FirstPagesRead(es: seq<Text>, pages: seq<Text>, m: nat)
    requires m <= |pages| && forall k :: 0 <= k < |pages| ==> ReadEntries(pages[k]) == OnPage(es, k)
    ensures ReadAll(pages[..m]) == OnPages(es, m)
  {
    if m > 0 {
      var n := m - 1;
      FirstPagesRead(es, pages, n);
      ReadNext(pages, n);
      assert ReadEntries(pages[n]) == OnPage(es, n);
    }
  }

  // The pages of a cycle read one after the other give every entry once and in order.
  lemma PagesRead(es: seq<Text>)
    requires EntriesOk(es)
    ensures ReadAll(Pages(es)) == es
    ensures forall k :: 0 <= k < |Pages(es)| ==> (Marked(Pages(es)[k]) <==> k + 1 < |Pages(es)|)
  {
    PagesCover(es);
    forall k | 0 <= k < |Pages(es)|
      ensures ReadEntries(Pages(es)[k]) == OnPage(es, k) && (Marked(Pages(es)[k]) <==> k + 1 < |Pages(es)|)
    {
      PageRead(es, k);
    }
    FirstPagesRead(es, Pages(es), |Pages(es)|);
    assert Pages(es)[..|Pages(es)|] == Pages(es);
  }
}
