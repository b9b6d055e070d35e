/**
 * Reading a characteristic: the cached value, offsets into it, and a client that reads it in pieces.
 */
module Gatt {
  import opened Wrappers
  import opened WifiText
  import opened WifiScan
  import opened WifiPages
  import opened WifiReader
  import opened WifiPager
  import opened WifiJson
  import JsonReader

  // An offset that is not strictly inside the value is ignored.
  function ReadAt(value: Text, offset: nat): Text {
    if 0 < offset < |value| then value[offset..] else value
  }

  class Characteristic {
    const pager: Pager
    var value: Text

    constructor ()
      ensures fresh(pager) && pager.Valid() && pager.state == SCAN_INIT && value == []
    {
      pager := new Pager();
      value := [];
    }

    // A remote read. Only an offset of zero moves the pager on; any other returns part of the same page.
    method ReadValue(offset: nat, file: Option<Text>, ghost es: seq<Text>) returns (reply: Text)
      requires pager.Valid() && (file.Some? ==> file.value == FileText(es) && Fitting(es))
      modifies this, pager
      ensures pager.Valid() && reply == ReadAt(value, offset)
      ensures offset != 0 ==> value == old(value) && pager.Remaining() == old(pager.Remaining())
      ensures offset == 0 && old(pager.state) != SCAN_INIT ==>
        reply == value && [value] + pager.Remaining() == old(pager.Remaining())
      ensures offset == 0 && old(pager.state) == SCAN_INIT && file.Some? ==>
        reply == value && [value] + pager.Remaining() == Pages(es)
    {
      if offset == 0 {
        var ok, page := pager.Update(file, false, es);
        if ok {
          value := page;
        }
      }
      reply := ReadAt(value, offset);
    }

    // A read from the hub itself: it begins the next cycle anew and leaves the cached value alone.
    method GetValue(file: Option<Text>, ghost es: seq<Text>) returns (reply: Text)
      requires pager.Valid() && (file.Some? ==> file.value == FileText(es) && Fitting(es))
      modifies this, pager
      ensures pager.Valid() && pager.Remaining() == [] && reply == value == old(value)
    {
      var ok, page := pager.Update(file, true, es);
      value := if ok then page else value;
      reply := ReadAt(value, 0);
    }
  }

  // A whole cycle of remote reads gives the pages of the stored list, each once and in order.
  method ReadCycle(chr: Characteristic, file: Text, ghost es: seq<Text>) returns (pages: seq<Text>)
    requires chr.pager.Valid() && chr.pager.state == SCAN_INIT && file == FileText(es) && Fitting(es)
    modifies chr, chr.pager
    ensures chr.pager.Valid() && pages == Pages(es)
  {
    var first := chr.ReadValue(0, Some(file), es);
    pages := [first];
    ghost var rest := chr.pager.Remaining();
    while chr.pager.state != SCAN_INIT
      invariant chr.pager.Valid() && rest == chr.pager.Remaining() && pages + rest == Pages(es)
      decreases |rest|
    {
      var next := chr.ReadValue(0, None, []);
      ghost var left := chr.pager.Remaining();
      OneMore(pages, next, left, rest);
      pages, rest := pages + [next], left;
    }
  }

  lemma OneMore(pages: seq<Text>, next: Text, left: seq<Text>, rest: seq<Text>)
    requires [next] + left == rest
    ensures pages + [next] + left == pages + rest && |left| < |rest|
  {
  }

  // The networks the hub meets: names, channels and strengths within their bounds.
  predicate Usual(n: Network) {
    |n.ssid| <= 32 && 0 <= n.channel < 1000 && 0 <= n.signal <= 100
  }

  lemma {:induction false} UsualFit(ns: seq<Network>)
    requires forall i :: 0 <= i < |ns| ==> Usual(ns[i])
    ensures Fitting(Entries(ns))
  {
    EntriesAreOk(ns);
    if ns != [] {
      UsualFit(ns[..|ns| - 1]);
      EntryFits(ns[|ns| - 1]);
    }
  }

  // From a scan to the pages a remote client reads.
  method ScanAndRead(networks: seq<Network>) returns (pages: seq<Text>)
    requires forall i :: 0 <= i < |networks| ==> Usual(networks[i])
    ensures pages == Pages(Entries(networks)) && ReadAll(pages) == Entries(networks)
    ensures OnPages(Records(networks), |pages|) == Records(networks)
    ensures forall k :: 0 <= k < |pages| ==>
      JsonReader.Read(pages[k]) == Some(PageValue(OnPage(Records(networks), k), k + 1 < |pages|))
  {
    forall i | 0 <= i < |networks| ensures |Escape(networks[i].ssid)| <= 64 {
      EscapedLength(networks[i].ssid);
    }
    var text, _ := Scan(networks);
    UsualFit(networks);
    var chr := new Characteristic();
    pages := ReadCycle(chr, text, Entries(networks));
    PagesRead(Entries(networks));
    PagesAreJson(networks);
  }

  // ---------- Long reads ----------

  function Min(a: nat, b: nat): nat {
    if a < b then a else b
  }

  // What the client receives for an offset, in pieces of at most m.
  function Piece(value: Text, offset: nat, m: nat): Text {
    var r := ReadAt(value, offset);
    r[..Min(m, |r|)]
  }

  // What it has after so many reads, each at the offset reached; it stops at a piece that is not full.
  datatype LongRead = Reading(got: Text) | Finished(text: Text)

  function ReadOn(value: Text, m: nat, rounds: nat): LongRead {
    if rounds == 0 then Reading([])
    else match ReadOn(value, m, rounds - 1)
      case Finished(t) => Finished(t)
      case Reading(got) =>
        var p := Piece(value, |got|, m);
        if |p| < m then Finished(got + p) else Reading(got + p)
  }

  lemma ReadStep(value: Text, m: nat, rounds: nat, at: nat)
    requires m > 0 && at + m <= |value| && ReadOn(value, m, rounds) == Reading(value[..at])
    ensures ReadOn(value, m, rounds + 1) == Reading(value[..at + m])
  {
    assert Piece(value, at, m) == value[at..at + m];
    assert value[..at] + value[at..at + m] == value[..at + m];
  }

  // As long as it reads inside the value it has a prefix of it.
  lemma {:induction false} ReadsPrefix(value: Text, m: nat, rounds: nat)
    requires m > 0 && m * rounds <= |value|
    ensures ReadOn(value, m, rounds) == Reading(value[..m * rounds])
    decreases rounds
  {
    if rounds > 0 {
      var at := m * (rounds - 1);
      assert at + m == m * rounds;
      ReadsPrefix(value, m, rounds - 1);
      ReadStep(value, m, rounds - 1, at);
    }
  }

  // A length that the pieces divide: the read at the very end starts again from the front, for ever.
  lemma {:induction false} NeverFinishes(value: Text, m: nat, rounds: nat)
    requires m > 0 && |value| >= m && |value| % m == 0
    ensures ReadOn(value, m, rounds).Reading? && |ReadOn(value, m, rounds).got| == m * rounds
    decreases rounds
  {
    if rounds > 0 {
      NeverFinishes(value, m, rounds - 1);
      var at := m * (rounds - 1);
      assert at + m == m * rounds;
      if at < |value| {
        RoomForOne(|value|, m, rounds - 1);
      }
    }
  }

  lemma MulLe(m: nat, q: nat, k: nat)
    requires q <= k
    ensures m * q <= m * k
  {
  }

  lemma RoomForOne(n: nat, m: nat, k: nat)
    requires m > 0 && n % m == 0 && m * k < n
    ensures m * k + m <= n
  {
    var q := n / m;
    assert n == m * q;
    if q <= k {
      MulLe(m, q, k);
    }
    assert m * (k + 1) <= m * q;
  }

  // The client ends with exactly the value if and only if the value is empty or its length is not a whole
  // number of pieces; otherwise it never ends.
  lemma LongReadIff(value: Text, m: nat)
    requires m > 0
    ensures (exists rounds :: ReadOn(value, m, rounds) == Finished(value)) <==> value == [] || |value| % m != 0
    ensures (exists rounds :: ReadOn(value, m, rounds).Finished?) <==> value == [] || |value| % m != 0
  {
    if value == [] || |value| % m != 0 {
      ReadEnds(value, m);
    } else {
      forall rounds: nat ensures ReadOn(value, m, rounds).Reading? {
        AtLeast(|value|, m);
        NeverFinishes(value, m, rounds);
      }
    }
  }

  lemma Pieces(n: nat, m: nat) returns (k: nat)
    requires m > 0 && (n == 0 || n % m != 0)
    ensures m * k <= n < m * k + m && (n == 0 || m * k < n)
  {
    k := n / m;
    assert n == m * k + n % m;
  }

  lemma ReadEnds(value: Text, m: nat)
    requires m > 0 && (value == [] || |value| % m != 0)
    ensures exists rounds :: ReadOn(value, m, rounds) == Finished(value)
  {
    var k := Pieces(|value|, m);
    ReadsPrefix(value, m, k);
    LastPiece(value, m, k);
  }

  lemma AtLeast(n: nat, m: nat)
    requires m > 0 && n > 0 && n % m == 0
    ensures n >= m
  {
  }

  lemma LastPiece(value: Text, m: nat, k: nat)
    requires m > 0 && m * k <= |value| < m * k + m && (value == [] || m * k < |value|)
    requires ReadOn(value, m, k) == Reading(value[..m * k])
    ensures ReadOn(value, m, k + 1) == Finished(value)
  {
    var at := m * k;
    assert Piece(value, at, m) == value[at..];
    assert value[..at] + value[at..] == value;
  }
}
