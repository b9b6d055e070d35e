/**
 * The scan results handed out two networks at a time.
 */
module WifiPager {
  import opened Wrappers
  import opened WifiText
  import opened WifiScan
  import opened WifiPages
  import opened WifiReader

  ghost predicate Fitting(es: seq<Text>) {
    EntriesOk(es) && forall i :: 0 <= i < |es| ==> |es[i]| <= 127
  }

  lemma FullPageText(es: seq<Text>)
    requires Fitting(es) && |es| > 2
    ensures var page := Page(es[0], es[1]); |page| < 512 && ReadEntries(page) == es[..2] && Marked(page)
  {
    ReadFull(es[0], es[1]);
    assert es[..2] == [es[0], es[1]];
  }

  lemma LastPageFits(es: seq<Text>)
    requires Fitting(es) && 0 < |es| <= 2
    ensures |LastPage(es)| < 512
  {
    if |es| == 2 {
      assert TailOf(es[1..]) == es[1] + END;
      assert |TailOf(es)| == |es[0]| + 1 + |es[1]| + 3;
    } else {
      assert |TailOf(es)| == |es[0]| + 3;
    }
  }

  // Formatting into a buffer cuts what does not fit.
  function Format512(t: Text): Text {
    if |t| < 512 then t else t[..511]
  }

  // ---------- Taking entries out of the text ----------

  lemma TailParts(es: seq<Text>)
    requires EntriesOk(es) && |es| > 1
    ensures var t := TailOf(es);
            && |es[0]| > 8 && |es[0]| + 1 < |t| && t[..|es[0]|] == es[0]
            && t[|es[0]| - 1] == '}' && t[|es[0]|] == ',' && t[|es[0]| + 1] == '{'
            && t[|es[0]| - 1..] == ['}', ','] + TailOf(es[1..])
  {
    FirstOk(es);
    RestOk(es);
    FirstOk(es[1..]);
    var u := TailOf(es[1..]);
    assert TailOf(es) == es[0] + ([','] + u);
    assert u[0] == es[1][0] == es[1][0..8][0] == '{';
  }

  // Where the first of the entries ends.
  lemma EntryEnds(text: Text, p: nat, es: seq<Text>)
    requires p <= |text| && text[p..] == TailOf(es) && EntriesOk(es) && |es| > 1
    ensures var n := |es[0]|;
            && n > 8 && p + n + 1 < |text| && text[p..p + n] == es[0]
            && text[p + n - 1] == '}' && text[p + n - 1..] == ['}', ','] + TailOf(es[1..])
  {
    TailParts(es);
    var n := |es[0]|;
    assert text[p + n - 1] == text[p..][n - 1];
    assert text[p..][..n] == text[p..p + n] && text[p..][n - 1..] == text[p + n - 1..];
  }

  // The place of the last closing brace at or before p.
  method SearchBack(text: Text, p: nat, ghost q: nat) returns (end: nat)
    requires q <= p < |text| && text[q] == '}'
    requires forall k :: q < k <= p ==> text[k] != '}'
    ensures end == q
  {
    end := p;
    while text[end] != '}'
      invariant q <= end <= p
      decreases end
    {
      end := end - 1;
    }
  }

  // The next key in a text that goes on with the entries es,
  method FirstKey(text: Text, from: nat, ghost junk: Text, ghost es: seq<Text>) returns (p: nat)
    requires from <= |text| && text[from..] == junk + TailOf(es) && Quiet(junk) && EntriesOk(es) && es != []
    ensures p == from + |junk| <= |text| && text[p..] == TailOf(es)
  {
    FindFirst(junk, es);
    p := from + FindKey(text[from..]).value;
    assert text[p..] == text[from..][|junk|..];
  }

  // and the key after it.
  method SecondKey(text: Text, p: nat, ghost es: seq<Text>) returns (q: nat)
    requires p <= |text| && text[p..] == TailOf(es) && EntriesOk(es) && |es| > 1
    ensures q == p + |es[0]| + 1
  {
    FindSecond(es);
    assert text[p + 8..] == text[p..][8..];
    q := p + 8 + FindKey(text[p + 8..]).value;
  }

  // The entry at the next key and the place of its closing brace, found from the key after it.
  method TakeEntry(text: Text, from: nat, ghost junk: Text, ghost es: seq<Text>) returns (entry: Text, end: nat)
    requires from <= |text| && text[from..] == junk + TailOf(es) && Quiet(junk) && EntriesOk(es) && |es| > 1
    ensures entry == es[0] && from <= end < |text| && text[end..] == ['}', ','] + TailOf(es[1..])
  {
    var p1 := FirstKey(text, from, junk, es);
    var p2 := SecondKey(text, p1, es);
    EntryEnds(text, p1, es);
    BetweenEntries(text, p1, es);
    end := SearchBack(text, p2, p1 + |es[0]| - 1);
    entry := text[p1..end + 1];
  }

  // And the one after it.
  method TakeTwo(text: Text, from: nat, ghost junk: Text, ghost es: seq<Text>) returns (a: Text, b: Text, end: nat)
    requires from <= |text| && text[from..] == junk + TailOf(es) && Quiet(junk) && EntriesOk(es) && |es| > 2
    ensures a == es[0] && b == es[1] && from <= end < |text| && text[end..] == ['}', ','] + TailOf(es[2..])
    ensures Quiet(['}', ','])
  {
    var end1;
    a, end1 := TakeEntry(text, from, junk, es);
    QuietWithout(['}', ',']);
    RestOk(es);
    b, end := TakeEntry(text, end1, ['}', ','], es[1..]);
    assert es[1..][1..] == es[2..];
  }

  lemma BetweenEntries(text: Text, p: nat, es: seq<Text>)
    requires p <= |text| && text[p..] == TailOf(es) && EntriesOk(es) && |es| > 1
    ensures var n := |es[0]|; p + n + 1 < |text| && text[p + n] == ',' && text[p + n + 1] == '{'
  {
    TailParts(es);
    var n := |es[0]|;
    assert text[p + n] == text[p..][n] && text[p + n + 1] == text[p..][n + 1];
  }

  // ---------- The pager ----------

  datatype ScanState = SCAN_INIT | SCAN_START | SCAN_MORE

  class Pager {
    var state: ScanState
    var results: Text
    var ptr: Option<nat>
    var count: nat
    var data: Text

    // The entries of the stored text, those from the pointer on, and what is before the first of them.
    ghost var held: seq<Text>
    ghost var todo: seq<Text>
    ghost var junk: Text

    ghost predicate Valid()
      reads this
    {
      && (ptr.Some? ==>
            && Fitting(held) && Fitting(todo) && results == FileText(held)
            && Quiet(junk) && ptr.value <= |results| && results[ptr.value..] == junk + TailOf(todo))
      && (state != SCAN_INIT ==> state == SCAN_MORE && ptr.Some? && todo != [] && count == |todo|)
    }

    // The pages a cycle under way has still to give.
    ghost function Remaining(): seq<Text>
      reads this
    {
      if state == SCAN_INIT then [] else PagesFrom(todo)
    }

    constructor ()
      ensures Valid() && state == SCAN_INIT && ptr == None
    {
      state, results, ptr, count, data := SCAN_INIT, [], None, 0, [];
      held, todo, junk := [], [], [];
    }

    // Reading the stored scan, when there is one; what was read before stays otherwise.
    method Load(file: Option<Text>, ghost es: seq<Text>)
      requires Valid() && state == SCAN_INIT
      requires file.Some? ==> file.value == FileText(es) && Fitting(es)
      modifies this
      ensures Valid() && state == SCAN_INIT
      ensures file.Some? ==> held == todo == es && ptr == Some(0)
      ensures file == None ==> held == old(held) && todo == old(todo) && ptr == old(ptr)
    {
      if file.Some? && |file.value| > 0 {
        results := file.value;
        ptr := Some(0);
        held, todo, junk := es, es, HEAD;
        QuietHead();
        assert results[0..] == results;
      }
    }

    // The next page of a cycle under way: the last,
    method ClosePage()
      requires Valid() && state == SCAN_MORE && |todo| <= 2
      modifies this`data, this`count
      ensures data == LastPage(todo) && count == 0
      ensures ReadEntries(data) == todo && !Marked(data)
    {
      var p := FirstKey(results, ptr.value, junk, todo);
      LastPageFits(todo);
      data := Format512(PAGE_HEAD + results[p..]);
      count := 0;
      QuietPageHead();
      ReadLast(PAGE_HEAD, todo);
    }

    // or one of two entries.
    method FullPage()
      requires Valid() && state == SCAN_MORE && |todo| > 2
      modifies this`data, this`count, this`ptr, this`todo, this`junk
      ensures Valid() && data == Page(old(todo)[0], old(todo)[1]) && todo == old(todo)[2..]
      ensures ReadEntries(data) == old(todo)[..2] && Marked(data)
    {
      var a, b, end := TakeTwo(results, ptr.value, junk, todo);
      FullPageText(todo);
      ptr := Some(end);
      data := Format512(PAGE_HEAD + a + AND + b + MORE);
      count := count - 2;
      todo, junk := todo[2..], ['}', ','];
    }

    method NextPage() returns (value: Text)
      requires Valid() && state == SCAN_MORE
      modifies this
      ensures Valid() && [value] + Remaining() == old(Remaining())
    {
      if count <= 2 {
        ClosePage();
      } else {
        FullPage();
      }
      value := data;
      if count == 0 {
        state := SCAN_INIT;
        ptr := None;
      }
    }

    // The start of a cycle: count what there is, and give all of it or the first page.
    method FirstPage() returns (value: Text)
      requires Valid() && state == SCAN_INIT && ptr.Some?
      modifies this
      ensures Valid() && [value] + Remaining() == old(Cycle(held, todo))
    {
      OneKeyPerEntry(junk, todo);
      count := CountKeys(results[ptr.value..]);
      if count <= 2 {
        ptr := None;
        return results;
      }
      state := SCAN_MORE;
      value := NextPage();
    }

    // The characteristic's update callback.
    method Update(file: Option<Text>, internal: bool, ghost es: seq<Text>) returns (ok: bool, value: Text)
      requires Valid() && (file.Some? ==> file.value == FileText(es) && Fitting(es))
      modifies this
      ensures Valid()
      ensures internal ==> !ok && Remaining() == []
      ensures internal && file.Some? ==> value == file.value
      ensures !internal && old(state) != SCAN_INIT ==> ok && [value] + Remaining() == old(Remaining())
      ensures !internal && old(state) == SCAN_INIT ==>
        && ok == (file.Some? || old(ptr).Some?)
        && (file.Some? ==> [value] + Remaining() == Pages(es))
        && (ok && file == None ==> [value] + Remaining() == old(Cycle(held, todo)))
    {
      if internal {
        state := SCAN_INIT;
      }
      if state == SCAN_INIT {
        Load(file, es);
        if ptr == None {
          return false, [];
        }
        if internal {
          return false, results;
        }
        value := FirstPage();
        return true, value;
      }
      value := NextPage();
      ok := true;
    }
  }
}
