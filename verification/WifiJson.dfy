/**
 * The pages as JSON: what a client that knows nothing of the hub's texts reads in them.
 */
module WifiJson {
  import opened Wrappers
  import opened Decimals
  import opened WifiText
  import opened WifiScan
  import opened WifiPages
  import opened JsonReader

  // What is told of a network.
  function Record(n: Network): Json {
    Obj([("ssid", Str(n.ssid)), ("security", Str(SecurityText(n.security))),
         ("channel", Num(n.channel)), ("signal", Num(n.signal))])
  }

  // ---------- The texts of the printer ----------

  lemma {:induction false} PlainEscape(s: Text)
    requires forall i :: 0 <= i < |s| ==> !Special(s[i])
    ensures Escape(s) == s
  {
    if s != [] {
      PlainEscape(s[..|s| - 1]);
    }
  }

  function Label(name: Text): Text {
    [',', ' '] + Quoted(name) + [':']
  }

  lemma KeyText()
    ensures KEY == ['{'] + Quoted("ssid") + [':']
  {
    PlainEscape("ssid");
  }

  lemma SecurityLabel()
    ensures SECURITY == ['"'] + Label("security") + ['"']
  {
    PlainEscape("security");
  }

  lemma ChannelLabel()
    ensures CHANNEL == ['"'] + Label("channel")
  {
    PlainEscape("channel");
  }

  lemma SignalLabel()
    ensures SIGNAL == Label("signal")
  {
    PlainEscape("signal");
  }

  lemma SecurityPlain(security: seq<Security>)
    ensures Escape(SecurityText(security)) == SecurityText(security)
  {
    PlainEscape(SecurityText(security));
  }

  // ---------- An entry is an object ----------

  // The members from some member on, as they stand in the text.
  function SignalOn(n: Network, rest: Text): Text {
    Quoted("signal") + ([':'] + (Decimal(n.signal) + (['}'] + rest)))
  }

  function ChannelOn(n: Network, rest: Text): Text {
    Quoted("channel") + ([':'] + (Decimal(n.channel) + ([','] + ([' '] + SignalOn(n, rest)))))
  }

  function SecurityOn(n: Network, rest: Text): Text {
    Quoted("security") + ([':'] + (Quoted(SecurityText(n.security)) + ([','] + ([' '] + ChannelOn(n, rest)))))
  }

  function NameOn(n: Network, rest: Text): Text {
    Quoted("ssid") + ([':'] + (Quoted(n.ssid) + ([','] + ([' '] + SecurityOn(n, rest)))))
  }

  // A label, its value and what follows, taken apart from the left.
  lemma Apart(q: Text, e: Text, rest: Text)
    ensures [',', ' '] + q + [':'] + e + rest == [','] + ([' '] + (q + ([':'] + (e + rest))))
  {
  }

  lemma Regroup(a: Text, b: Text, c: Text, d: Text)
    ensures a + b + (c + d) == a + b + c + d && a + (b + c) + d == a + b + c + d && a + (b + c + d) == a + b + c + d
  {
  }

  lemma SignalShape(n: Network, rest: Text)
    ensures SIGNAL + Decimal(n.signal) + ['}'] + rest == [','] + ([' '] + SignalOn(n, rest))
  {
    SignalLabel();
    var g := Decimal(n.signal);
    Apart(Quoted("signal"), g, ['}'] + rest);
    Regroup(SIGNAL, g, ['}'], rest);
  }

  lemma ChannelShape(n: Network, tail: Text)
    ensures CHANNEL + Decimal(n.channel) + tail == ['"'] + ([','] + ([' '] + (Quoted("channel") + ([':'] + (Decimal(n.channel) + tail)))))
  {
    ChannelLabel();
    var c := Decimal(n.channel);
    Apart(Quoted("channel"), c, tail);
    Regroup(['"'], Label("channel"), c, tail);
  }

  lemma NumbersShape(n: Network, rest: Text)
    ensures Numbers(n) + rest == ['"'] + ([','] + ([' '] + ChannelOn(n, rest)))
  {
    var c, g := Decimal(n.channel), SIGNAL + Decimal(n.signal) + ['}'];
    SignalShape(n, rest);
    ChannelShape(n, g + rest);
    Regroup(CHANNEL, c, g, rest);
  }

  lemma RestShape(n: Network, rest: Text)
    ensures Rest(n) + rest == ['"'] + ([','] + ([' '] + SecurityOn(n, rest)))
  {
    var s, tail := SecurityText(n.security), [','] + ([' '] + ChannelOn(n, rest));
    NumbersShape(n, rest);
    Regroup(SECURITY, s, Numbers(n), rest);
    SecurityPlain(n.security);
    SecurityShape(s, tail);
  }

  lemma SecurityShape(s: Text, tail: Text)
    requires Escape(s) == s
    ensures SECURITY + s + (['"'] + tail) == ['"'] + ([','] + ([' '] + (Quoted("security") + ([':'] + (Quoted(s) + tail)))))
  {
    SecurityLabel();
    Apart(Quoted("security"), Quoted(s), tail);
    QuotesMove(Label("security"), s, tail);
  }

  lemma QuotesMove(l: Text, s: Text, tail: Text)
    ensures ['"'] + l + ['"'] + s + (['"'] + tail) == ['"'] + (l + (['"'] + s + ['"']) + tail)
  {
  }

  lemma NameShape(s: Text, tail: Text)
    ensures KEY + (['"'] + Escape(s) + (['"'] + tail)) == ['{'] + (Quoted("ssid") + ([':'] + (Quoted(s) + tail)))
  {
    KeyText();
    KeyMoves(Quoted("ssid"), Escape(s), tail);
  }

  lemma KeyMoves(q: Text, e: Text, tail: Text)
    ensures ['{'] + q + [':'] + (['"'] + e + (['"'] + tail)) == ['{'] + (q + ([':'] + (['"'] + e + ['"'] + tail)))
  {
  }

  lemma EntryShape(n: Network, rest: Text)
    ensures Entry(n) + rest == ['{'] + NameOn(n, rest)
  {
    RestShape(n, rest);
    NameShape(n.ssid, [','] + ([' '] + SecurityOn(n, rest)));
    EntryMoves(KEY, Escape(n.ssid), Rest(n), rest);
  }

  lemma EntryMoves(k: Text, e: Text, r: Text, rest: Text)
    ensures k + (['"'] + e + r) + rest == k + (['"'] + e + (r + rest))
  {
  }

  lemma SignalRead(n: Network, rest: Text)
    ensures ReadMembers([' '] + SignalOn(n, rest)) == Some(([("signal", Num(n.signal))], rest))
  {
    NumberReads(n.signal);
    LastMember("signal", Decimal(n.signal), Num(n.signal), rest);
    MembersBlank(' ', SignalOn(n, rest));
  }

  // One more member in front, with the space before it.
  lemma OneMore(name: Text, e: Text, v: Json, more: Text, ms: seq<(Text, Json)>, rest: Text)
    requires Reads(e, v) && ReadMembers(more) == Some((ms, rest))
    ensures ReadMembers([' '] + (Quoted(name) + ([':'] + (e + ([','] + more))))) == Some(([(name, v)] + ms, rest))
  {
    MemberAndMore(name, e, v, more, ms, rest);
    MembersBlank(' ', Quoted(name) + ([':'] + (e + ([','] + more))));
  }

  lemma NumbersRead(n: Network, rest: Text)
    ensures ReadMembers([' '] + ChannelOn(n, rest)) == Some(([("channel", Num(n.channel))] + [("signal", Num(n.signal))], rest))
  {
    SignalRead(n, rest);
    NumberReads(n.channel);
    OneMore("channel", Decimal(n.channel), Num(n.channel), [' '] + SignalOn(n, rest), [("signal", Num(n.signal))], rest);
  }

  lemma SecurityRead(n: Network, rest: Text)
    ensures ReadMembers([' '] + SecurityOn(n, rest)) == Some(([("security", Str(SecurityText(n.security)))]
              + ([("channel", Num(n.channel))] + [("signal", Num(n.signal))]), rest))
  {
    var s, ms := SecurityText(n.security), [("channel", Num(n.channel))] + [("signal", Num(n.signal))];
    NumbersRead(n, rest);
    StringReads(s);
    OneMore("security", Quoted(s), Str(s), [' '] + ChannelOn(n, rest), ms, rest);
  }

  lemma Four<T>(a: T, b: T, c: T, d: T)
    ensures [a] + ([b] + ([c] + [d])) == [a, b, c, d]
  {
  }

  lemma MembersRead(n: Network, rest: Text)
    ensures ReadMembers(NameOn(n, rest)) == Some((Record(n).members, rest))
  {
    var s := SecurityText(n.security);
    var ms: seq<(Text, Json)> := [("security", Str(s))] + ([("channel", Num(n.channel))] + [("signal", Num(n.signal))]);
    SecurityRead(n, rest);
    StringReads(n.ssid);
    MemberAndMore("ssid", Quoted(n.ssid), Str(n.ssid), [' '] + SecurityOn(n, rest), ms, rest);
    Four(("ssid", Str(n.ssid)), ("security", Str(s)), ("channel", Num(n.channel)), ("signal", Num(n.signal)));
  }

  lemma EntryReads(n: Network)
    ensures Reads(Entry(n), Record(n))
  {
    forall rest: Text | rest != [] && !IsDigit(rest[0]) ensures ReadValue(Entry(n) + rest) == Some((Record(n), rest)) {
      EntryShape(n, rest);
      MembersRead(n, rest);
      assert NameOn(n, rest)[0] == '"';
      ObjectReads(NameOn(n, rest), Record(n).members, rest);
    }
  }

  // ---------- The entries of a page are an array ----------

  // Each text is read as the value in its place.
  ghost predicate AllRead(es: seq<Text>, vs: seq<Json>) {
    |es| == |vs| && forall i :: 0 <= i < |es| ==> Reads(es[i], vs[i])
  }

  lemma {:induction false} ItemsRead(es: seq<Text>, vs: seq<Json>, rest: Text)
    requires AllRead(es, vs) && es != []
    ensures ReadItems(Joined(es) + ([']'] + rest)) == Some((vs, rest))
    decreases |es|
  {
    if |es| == 1 {
      JoinedOne(es);
      LastItem(es[0], vs[0], rest);
      assert vs == [vs[0]];
    } else {
      JoinedFirst(es);
      ItemsRead(es[1..], vs[1..], rest);
      var more := Joined(es[1..]) + ([']'] + rest);
      ItemAndMore(es[0], vs[0], more, vs[1..], rest);
      MoreMoves(es[0], Joined(es[1..]), [']'] + rest);
      assert vs == [vs[0]] + vs[1..];
    }
  }

  lemma ArrayReads(es: seq<Text>, vs: seq<Json>)
    requires AllRead(es, vs) && EntriesOk(es)
    ensures Reads(['['] + Joined(es) + [']'], Arr(vs))
  {
    if es == [] {
      assert ['['] + Joined(es) + [']'] == ['[', ']'];
      EmptyArrayReads();
    } else {
      forall rest: Text | rest != [] && !IsDigit(rest[0]) ensures ReadValue(['['] + Joined(es) + [']'] + rest) == Some((Arr(vs), rest)) {
        var items := Joined(es) + ([']'] + rest);
        ItemsRead(es, vs, rest);
        JoinedBrace(es);
        ArrayRead(items, vs, rest);
        assert ['['] + Joined(es) + [']'] + rest == ['['] + items;
      }
    }
  }

  lemma JoinedBrace(es: seq<Text>)
    requires EntriesOk(es) && es != []
    ensures Joined(es) != [] && Joined(es)[0] == '{'
  {
    FirstOk(es);
    assert es[0][0] == es[0][0..8][0];
    if |es| == 1 {
      JoinedOne(es);
    } else {
      JoinedFirst(es);
    }
  }

  lemma MoreMoves(e: Text, j: Text, end: Text)
    ensures e + ([','] + j) + end == e + ([','] + (j + end))
  {
  }

  lemma PairMoves(a: Text, b: Text, rest: Text)
    ensures ['['] + (a + AND + b) + [']'] + rest == ['['] + (a + ([','] + ([' '] + (b + ([']'] + rest)))))
  {
    assert AND == [','] + [' '];
  }

  lemma PairItems(a: Text, b: Text, v: Json, w: Json, rest: Text)
    requires Reads(a, v) && Reads(b, w)
    ensures ReadItems(a + ([','] + ([' '] + (b + ([']'] + rest))))) == Some(([v, w], rest))
  {
    var more := b + ([']'] + rest);
    LastItem(b, w, rest);
    ValueBlank(' ', more);
    ItemAndMore(a, v, [' '] + more, [w], rest);
    assert [v] + [w] == [v, w];
  }

  lemma PairReads(a: Text, b: Text, v: Json, w: Json)
    requires EntryOk(a) && Reads(a, v) && Reads(b, w)
    ensures Reads(['['] + (a + AND + b) + [']'], Arr([v, w]))
  {
    assert a[0] == a[0..8][0];
    forall rest: Text | rest != [] && !IsDigit(rest[0])
      ensures ReadValue(['['] + (a + AND + b) + [']'] + rest) == Some((Arr([v, w]), rest))
    {
      PairItems(a, b, v, w, rest);
      ArrayRead(a + ([','] + ([' '] + (b + ([']'] + rest)))), [v, w], rest);
      PairMoves(a, b, rest);
    }
  }

  // ---------- A page is an object ----------

  function PageValue(vs: seq<Json>, more: bool): Json {
    Obj([("scanresults", Arr(vs))] + if more then [("more", Str("true"))] else [])
  }

  lemma ScanResultsText()
    ensures Quoted("scanresults") == ['"'] + "scanresults" + ['"']
  {
    PlainEscape("scanresults");
  }

  lemma PageHeadText()
    ensures PAGE_HEAD == ['{'] + Quoted("scanresults") + [':'] + ['[']
  {
    ScanResultsText();
  }

  lemma HeadText()
    ensures HEAD == ['{'] + Quoted("scanresults") + [':'] + ['\n'] + ['[']
  {
    ScanResultsText();
  }

  lemma MoreText()
    ensures MORE == [']'] + ([','] + ([' '] + (Quoted("more") + ([':'] + (Quoted("true") + ['}'])))))
  {
    PlainEscape("more");
    PlainEscape("true");
  }

  lemma QuotedFirst(s: Text, t: Text)
    ensures (Quoted(s) + t) != [] && (Quoted(s) + t)[0] == '"'
  {
  }

  // An object whose only member has this array,
  lemma OneMember(arr: Text, v: Json, rest: Text)
    requires Reads(arr, v)
    ensures ReadValue(['{'] + (Quoted("scanresults") + ([':'] + (arr + (['}'] + rest))))) == Some((Obj([("scanresults", v)]), rest))
  {
    LastMember("scanresults", arr, v, rest);
    var members := Quoted("scanresults") + ([':'] + (arr + (['}'] + rest)));
    QuotedFirst("scanresults", [':'] + (arr + (['}'] + rest)));
    ObjectReads(members, [("scanresults", v)], rest);
  }

  // or that has the mark beside it.
  lemma TwoMembers(arr: Text, v: Json)
    requires Reads(arr, v)
    ensures var more := [' '] + (Quoted("more") + ([':'] + (Quoted("true") + ['}'])));
            ReadValue(['{'] + (Quoted("scanresults") + ([':'] + (arr + ([','] + more)))))
              == Some((Obj([("scanresults", v)] + [("more", Str("true"))]), []))
  {
    var mark := Quoted("more") + ([':'] + (Quoted("true") + ['}']));
    StringReads("true");
    LastMember("more", Quoted("true"), Str("true"), []);
    assert ['}'] + [] == ['}'];
    MembersBlank(' ', mark);
    MemberAndMore("scanresults", arr, v, [' '] + mark, [("more", Str("true"))], []);
    var members := Quoted("scanresults") + ([':'] + (arr + ([','] + ([' '] + mark))));
    QuotedFirst("scanresults", [':'] + (arr + ([','] + ([' '] + mark))));
    ObjectReads(members, [("scanresults", v)] + [("more", Str("true"))], []);
  }

  lemma FullMoves(q: Text, body: Text, more: Text)
    ensures ['{'] + q + [':'] + ['['] + body + ([']'] + ([','] + more))
         == ['{'] + (q + ([':'] + (['['] + body + [']'] + ([','] + more))))
  {
  }

  lemma FullPageRead(a: Text, b: Text, v: Json, w: Json)
    requires EntryOk(a) && Reads(a, v) && Reads(b, w)
    ensures Read(Page(a, b)) == Some(PageValue([v, w], true))
  {
    PageHeadText();
    MoreText();
    PairReads(a, b, v, w);
    TwoMembers(['['] + (a + AND + b) + [']'], Arr([v, w]));
    Regroup(PAGE_HEAD, a, AND, b);
    FullMoves(Quoted("scanresults"), a + AND + b, [' '] + (Quoted("more") + ([':'] + (Quoted("true") + ['}']))));
  }

  lemma LastMoves(q: Text, blank: Text, body: Text, rest: Text)
    ensures ['{'] + q + [':'] + blank + ['['] + (body + ([']'] + (['}'] + rest)))
         == ['{'] + (q + ([':'] + (blank + (['['] + body + [']']) + (['}'] + rest))))
  {
  }

  lemma Ended(body: Text, blank: Text, v: Json)
    requires Reads(blank + (['['] + body + [']']), v)
    ensures Read(['{'] + Quoted("scanresults") + [':'] + blank + ['['] + (body + END)) == Some(Obj([("scanresults", v)]))
  {
    OneMember(blank + (['['] + body + [']']), v, ['\n']);
    LastMoves(Quoted("scanresults"), blank, body, ['\n']);
    assert END == [']'] + (['}'] + ['\n']);
    TrimBlank('\n', []);
    assert ['\n'] + [] == ['\n'];
  }

  lemma NoMark(v: Json)
    ensures [("scanresults", v)] + [] == [("scanresults", v)]
  {
  }

  lemma LastPageRead(es: seq<Text>, vs: seq<Json>)
    requires AllRead(es, vs) && EntriesOk(es)
    ensures Read(LastPage(es)) == Some(PageValue(vs, false))
  {
    var body := Joined(es);
    JoinedIsTail(es);
    ArrayReads(es, vs);
    PageHeadText();
    var arr := ['['] + body + [']'];
    assert [] + arr == arr;
    Ended(body, [], Arr(vs));
    var head := ['{'] + Quoted("scanresults") + [':'];
    assert head + [] == head;
    NoMark(Arr(vs));
  }

  lemma FileRead(es: seq<Text>, vs: seq<Json>)
    requires AllRead(es, vs) && EntriesOk(es)
    ensures Read(FileText(es)) == Some(PageValue(vs, false))
  {
    var body := Joined(es);
    JoinedIsTail(es);
    ArrayReads(es, vs);
    HeadText();
    BlankReads('\n', ['['] + body + [']'], Arr(vs));
    Ended(body, ['\n'], Arr(vs));
    NoMark(Arr(vs));
  }

  // ---------- Whole scans ----------

  // The records of the networks shown, in order.
  function Records(ns: seq<Network>): seq<Json> {
    if ns == [] then []
    else Records(ns[..|ns| - 1]) + if Shown(ns[|ns| - 1]) then [Record(ns[|ns| - 1])] else []
  }

  lemma {:induction false} EntriesRead(ns: seq<Network>)
    ensures AllRead(Entries(ns), Records(ns))
  {
    if ns != [] {
      EntriesRead(ns[..|ns| - 1]);
      EntryReads(ns[|ns| - 1]);
    }
  }

  lemma PageReadAs(es: seq<Text>, vs: seq<Json>, k: nat)
    requires AllRead(es, vs) && EntriesOk(es) && 2 * k <= |es|
    ensures Read(PageText(es, k)) == Some(PageValue(OnPage(vs, k), 2 * k + 2 < |es|))
  {
    var on, of := OnPage(es, k), OnPage(vs, k);
    if 2 * k + 2 < |es| {
      FullPageRead(on[0], on[1], of[0], of[1]);
      assert of == [of[0], of[1]];
    } else {
      LastPageRead(on, of);
      FileRead(on, of);
    }
  }

  // Each page of a scan is a JSON text: an object with the records of its two networks, and a mark that there is
  // more exactly when there is. The pages together have the records of all the networks shown, in order.
  lemma PagesAreJson(ns: seq<Network>)
    ensures var pages, vs := Pages(Entries(ns)), Records(ns);
            && (forall k :: 0 <= k < |pages| ==>
                  2 * k <= |vs| && Read(pages[k]) == Some(PageValue(OnPage(vs, k), k + 1 < |pages|)))
            && 2 * (|pages| - 1) <= |vs| && OnPages(vs, |pages|) == vs
  {
    var es, vs := Entries(ns), Records(ns);
    EntriesRead(ns);
    EntriesAreOk(ns);
    PagesCover(es);
    forall k | 0 <= k < |Pages(es)|
      ensures 2 * k <= |vs| && Read(Pages(es)[k]) == Some(PageValue(OnPage(vs, k), k + 1 < |Pages(es)|))
    {
      PageReadAs(es, vs, k);
    }
    FirstPages(vs, |Pages(es)|);
    assert vs[..|vs|] == vs;
  }
}
