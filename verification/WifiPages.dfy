/**
 * The pages a scan is handed out in, two networks to a page.
 */
module WifiPages {
  import opened WifiText
  import opened WifiScan

  const PAGE_HEAD: Text := "{\"scanresults\":["
  const AND: Text := ", "
  const MORE: Text := "], \"more\":\"true\"}"

  function FileText(es: seq<Text>): Text {
    HEAD + TailOf(es)
  }

  function Page(a: Text, b: Text): Text {
    PAGE_HEAD + a + AND + b + MORE
  }

  function LastPage(es: seq<Text>): Text {
    PAGE_HEAD + TailOf(es)
  }

  function PagesFrom(es: seq<Text>): (p: seq<Text>)
    ensures p != []
  {
    if |es| <= 2 then [LastPage(es)] else [Page(es[0], es[1])] + PagesFrom(es[2..])
  }

  // A cycle that finds at most two entries hands out the text as it is stored.
  function Cycle(held: seq<Text>, found: seq<Text>): seq<Text> {
    if |found| <= 2 then [FileText(held)] else PagesFrom(found)
  }

  function Pages(es: seq<Text>): seq<Text> {
    Cycle(es, es)
  }

  // What is on page k of a list, when there are two to a page.
  function OnPage<T>(es: seq<T>, k: nat): seq<T> {
    if 2 * k + 2 < |es| then es[2 * k..2 * k + 2] else if 2 * k < |es| then es[2 * k..] else []
  }

  // And on the first m pages.
  function OnPages<T>(es: seq<T>, m: nat): seq<T> {
    if m == 0 then [] else OnPages(es, m - 1) + OnPage(es, m - 1)
  }

  // The text of page k of a cycle: marked unless it is the last, and with the stored text's own head if
  // it is the only one.
  function PageText(es: seq<Text>, k: nat): Text
    requires 2 * k <= |es|
  {
    if 2 * k + 2 < |es| then Page(OnPage(es, k)[0], OnPage(es, k)[1])
    else (if |es| <= 2 then HEAD else PAGE_HEAD) + TailOf(OnPage(es, k))
  }

  function PageCount(n: nat): nat {
    if n == 0 then 1 else (n + 1) / 2
  }

  lemma {:induction false} PagesFromCover(es: seq<Text>, k: nat)
    requires |es| > 0 && k < |PagesFrom(es)|
    ensures |PagesFrom(es)| == PageCount(|es|) && 2 * k < |es|
    ensures PagesFrom(es)[k] == if 2 * k + 2 < |es| then Page(es[2 * k], es[2 * k + 1]) else LastPage(es[2 * k..])
    decreases |es|
  {
    if |es| <= 2 {
      assert es[2 * k..] == es;
    } else {
      var rest := es[2..];
      PagesFromCover(rest, if k > 0 then k - 1 else 0);
      if k > 0 {
        assert PagesFrom(es)[k] == PagesFrom(rest)[k - 1];
        assert rest[2 * (k - 1)..] == es[2 * k..];
      }
    }
  }

  lemma {:induction false} FirstPages<T>(es: seq<T>, m: nat)
    ensures OnPages(es, m) == es[..if 2 * m < |es| then 2 * m else |es|]
  {
    if m > 0 {
      FirstPages(es, m - 1);
      if 2 * (m - 1) < |es| {
        assert es[..2 * (m - 1)] + OnPage(es, m - 1) == es[..if 2 * m < |es| then 2 * m else |es|];
      }
    }
  }

  lemma PageShows(es: seq<Text>, k: nat)
    requires |es| > 2 && k < |PagesFrom(es)|
    ensures 2 * k < |es| && PagesFrom(es)[k] == PageText(es, k)
  {
    PagesFromCover(es, k);
    if 2 * k + 2 >= |es| {
      assert OnPage(es, k) == es[2 * k..];
    }
  }

  lemma PageCountCovers(n: nat)
    ensures 2 * PageCount(n) >= n && 2 * (PageCount(n) - 1) <= n
  {
  }

  // Every entry is on one page, in order, and a page shows its entries and no others.
  lemma PagesCover(es: seq<Text>)
    ensures |Pages(es)| == PageCount(|es|) && 2 * (|Pages(es)| - 1) <= |es|
    ensures forall k :: 0 <= k < |Pages(es)| ==> Pages(es)[k] == PageText(es, k)
    ensures OnPages(es, |Pages(es)|) == es
  {
    PageCountCovers(|es|);
    if |es| > 2 {
      PagesFromCover(es, 0);
      forall k | 0 <= k < |Pages(es)| ensures Pages(es)[k] == PageText(es, k) {
        PageShows(es, k);
      }
    } else {
      assert OnPage(es, 0) == es;
    }
    FirstPages(es, PageCount(|es|));
    assert es[..|es|] == es;
  }
}
