/**
 * The link scraper (scrap.py): result pages of the agency are loaded one
 * after the other until a page shows no property anchor; the hrefs found are
 * collected in page order, then the duplicates and the distinct links are
 * computed and the collected list is saved. The browser is modelled as the
 * site: the hrefs of the property anchors of pages 1, 2, ...; every page
 * past the end of that list shows none.
 */
module Scrap {
  import opened Wrappers
  import opened Text

  const BaseUrl := "https://century21mexico.com/v/resultados/oficina_501-apolo_local"
  const PagePrefix := "https://century21mexico.com/v/resultados/pagina_"
  const PageSuffix := "/oficina_501-apolo_local"

  /** `full_url` for a page number (line 34). */
  function PageUrl(page: nat): (r: string) {
    if page == 1 then BaseUrl else PagePrefix + NatToString(page) + PageSuffix
  }

  /** Reads the page number back from a result-page URL. */
  function PageOf(url: string): Option<nat> {
    if url == BaseUrl then Some(1)
    else if |url| > |PagePrefix| + |PageSuffix|
         && url[..|PagePrefix|] == PagePrefix
         && url[|url| - |PageSuffix|..] == PageSuffix
         && (forall k :: |PagePrefix| <= k < |url| - |PageSuffix| ==> IsDigit(url[k]))
    then Some(DecimalValue(url[|PagePrefix|..|url| - |PageSuffix|]))
    else None
  }

  /** Every page URL names its page: the first page is the base URL, later ones carry their number. */
  lemma PageUrlRoundTrip(page: nat)
    ensures PageOf(PageUrl(page)) == Some(page)
    ensures page == 1 <==> PageUrl(page) == BaseUrl
  {
    if page != 1 {
      var u := PageUrl(page);
      var digits := NatToString(page);
      assert u[..|PagePrefix|] == PagePrefix;
      assert u[|u| - |PageSuffix|..] == PageSuffix;
      assert u[|PagePrefix|..|u| - |PageSuffix|] == digits;
      assert u != BaseUrl by {
        assert u[|PagePrefix| - 7] == 'p' && BaseUrl[|PagePrefix| - 7] == 'o';
      }
      DecimalRoundTrip(page);
    }
  }

  /** Different pages are loaded from different URLs. */
  lemma PageUrlInjective(p: nat, q: nat)
    requires PageUrl(p) == PageUrl(q)
    ensures p == q
  {
    PageUrlRoundTrip(p);
    PageUrlRoundTrip(q);
  }

  /** The hrefs of the property anchors on a page (`get_attribute` gives None for a missing one). */
  type Site = seq<seq<Option<string>>>

  function Anchors(site: Site, page: nat): seq<Option<string>>
    requires page >= 1
  {
    if page <= |site| then site[page - 1] else []
  }

  /** The first page from `page` on that shows no anchor. */
  function StopFrom(site: Site, page: nat): (r: nat)
    requires page >= 1
    ensures page <= r && Anchors(site, r) == []
    ensures r <= |site| + 1 || r == page
    ensures forall q :: page <= q < r ==> Anchors(site, q) != []
    decreases |site| + 1 - page
  {
    if Anchors(site, page) == [] then page else StopFrom(site, page + 1)
  }

  /** The page the crawl stops at. */
  function Stop(site: Site): nat {
    StopFrom(site, 1)
  }

  /** A truthy href: present and not empty. */
  predicate Truthy(href: Option<string>) {
    href.Some? && href.value != []
  }

  /** The truthy hrefs of a page, in on-page order (lines 45-48). */
  function Kept(hrefs: seq<Option<string>>): (r: seq<string>)
    ensures |r| <= |hrefs|
    ensures forall x :: x in r <==> Some(x) in hrefs && x != []
    decreases |hrefs|
  {
    if hrefs == [] then []
    else
      var n := |hrefs| - 1;
      Kept(hrefs[..n]) + (if Truthy(hrefs[n]) then [hrefs[n].value] else [])
  }

  /** The links of pages `lo` up to (not including) `hi`, in page order, then on-page order. */
  function Collected(site: Site, lo: nat, hi: nat): seq<string>
    requires 1 <= lo <= hi
    decreases hi - lo
  {
    if lo == hi then [] else Collected(site, lo, hi - 1) + Kept(Anchors(site, hi - 1))
  }

  /** Every collected link is a truthy href of a page in the range. */
  lemma {:induction false} CollectedFromPages(site: Site, lo: nat, hi: nat, x: string)
    requires 1 <= lo <= hi && x in Collected(site, lo, hi)
    ensures x != []
    ensures exists p :: lo <= p < hi && Some(x) in Anchors(site, p)
    decreases hi - lo
  {
    if x !in Collected(site, lo, hi - 1) {
      assert x in Kept(Anchors(site, hi - 1));
    } else {
      CollectedFromPages(site, lo, hi - 1, x);
    }
  }

  /** Every truthy href of a page in the range is collected. */
  lemma {:induction false} PagesCollected(site: Site, lo: nat, hi: nat, p: nat, x: string)
    requires 1 <= lo <= p < hi && Some(x) in Anchors(site, p) && x != []
    ensures x in Collected(site, lo, hi)
    decreases hi - lo
  {
    if p < hi - 1 {
      PagesCollected(site, lo, hi - 1, p, x);
    }
  }

  /** `f(1)`, ..., `f(n)`, in order. */
  function Listed(f: nat -> string, n: nat): (r: seq<string>)
    ensures |r| == n
    decreases n
  {
    if n == 0 then [] else Listed(f, n - 1) + [f(n)]
  }

  /** The `i`-th element of the list is `f(i + 1)`. */
  lemma {:induction false} ListedAt(f: nat -> string, n: nat, i: nat)
    requires i < n
    ensures Listed(f, n)[i] == f(i + 1)
    decreases n
  {
    if i < n - 1 {
      ListedAt(f, n - 1, i);
    }
  }

  /** The URLs of pages 1 up to `page`, in order. */
  function Urls(page: nat): (r: seq<string>)
    ensures |r| == page
  {
    Listed(PageUrl, page)
  }

  /** The `i`-th loaded URL is the one of page `i + 1`. */
  lemma UrlAt(page: nat, i: nat)
    requires i < page
    ensures Urls(page)[i] == PageUrl(i + 1)
  {
    ListedAt(PageUrl, page, i);
  }

  /** No page is loaded twice. */
  lemma UrlsNoRepeats(page: nat)
    ensures NoRepeats(Urls(page))
  {
    forall i, j | 0 <= i < j < page ensures Urls(page)[i] != Urls(page)[j] {
      UrlAt(page, i);
      UrlAt(page, j);
      if PageUrl(i + 1) == PageUrl(j + 1) {
        PageUrlInjective(i + 1, j + 1);
      }
    }
  }

  /**
   * Lines 32-51: pages 1, 2, ... are loaded in turn; the first page with no
   * anchor ends the crawl; the truthy hrefs of the pages before it are
   * appended to `all_links`.
   */
  method Crawl(site: Site) returns (allLinks: seq<string>, visited: seq<string>)
    ensures visited == Urls(Stop(site))
    ensures allLinks == Collected(site, 1, Stop(site))
  {
    allLinks, visited := [], [];
    var page := 1;
    while true
      invariant 1 <= page <= Stop(site)
      invariant visited == Urls(page - 1)
      invariant allLinks == Collected(site, 1, page)
      decreases |site| + 1 - page
    {
      var fullUrl := PageUrl(page);
      visited := visited + [fullUrl];
      var items := Anchors(site, page);
      if items == [] {
        break;
      }
      var links := AppendTruthy(items);
      allLinks := allLinks + links;
      page := page + 1;
    }
  }

  /** The inner loop of lines 45-48: the truthy hrefs of one page, in on-page order. */
  method AppendTruthy(items: seq<Option<string>>) returns (links: seq<string>)
    ensures links == Kept(items)
  {
    links := [];
    for j := 0 to |items|
      invariant links == Kept(items[..j])
    {
      var href := items[j];
      if href.Some? && href.value != [] {
        links := links + [href.value];
      }
      assert items[..j + 1][..j] == items[..j];
    }
    assert items[..|items|] == items;
  }

  /** How often a link was collected. */
  function Count(links: seq<string>, x: string): nat {
    multiset(links)[x]
  }

  /** No link appears twice. */
  predicate NoRepeats(links: seq<string>) {
    forall i, j :: 0 <= i < j < |links| ==> links[i] != links[j]
  }

  /**
   * The keys of `Counter(all_links)`: each link once, in order of first
   * occurrence.
   */
  function Distinct(links: seq<string>): (r: seq<string>)
    ensures NoRepeats(r)
    ensures forall x :: x in r <==> x in links
    decreases |links|
  {
    if links == [] then []
    else
      var n := |links| - 1;
      var d := Distinct(links[..n]);
      assert forall x :: x in links <==> x in links[..n] || x == links[n] by {
        assert links == links[..n] + [links[n]];
      }
      if links[n] in d then d else d + [links[n]]
  }

  /** `duplicates` (line 56): the links collected more than once, each listed once. */
  function Duplicates(links: seq<string>): seq<string> {
    Repeated(links, Distinct(links))
  }

  /** The keys whose count is above one, in key order. */
  function Repeated(links: seq<string>, keys: seq<string>): (r: seq<string>)
    ensures forall x :: x in r <==> x in keys && Count(links, x) > 1
    ensures NoRepeats(keys) ==> NoRepeats(r)
    decreases |keys|
  {
    if keys == [] then []
    else
      var n := |keys| - 1;
      var rest := Repeated(links, keys[..n]);
      assert forall x :: x in keys <==> x in keys[..n] || x == keys[n] by {
        assert keys == keys[..n] + [keys[n]];
      }
      if Count(links, keys[n]) > 1 then rest + [keys[n]] else rest
  }

  /** A link is a duplicate exactly when it was collected more than once; none is listed twice. */
  lemma DuplicatesSpec(links: seq<string>)
    ensures NoRepeats(Duplicates(links))
    ensures forall x :: x in Duplicates(links) <==> Count(links, x) > 1
  {
    forall x ensures x in Duplicates(links) <==> Count(links, x) > 1 {
      if Count(links, x) > 1 {
        assert x in multiset(links);
      }
    }
  }

  /** `unique_links` (line 65): no repeats, the same links as collected, one entry per distinct link. */
  lemma UniqueLinksSpec(links: seq<string>)
    ensures NoRepeats(Distinct(links))
    ensures forall x :: x in Distinct(links) <==> x in links
    ensures |Distinct(links)| <= |links|
  {
    DistinctShorter(links);
  }

  /** There are no more distinct links than links. */
  lemma {:induction false} DistinctShorter(links: seq<string>)
    ensures |Distinct(links)| <= |links|
    decreases |links|
  {
    if links != [] {
      DistinctShorter(links[..|links| - 1]);
    }
  }

  /** A list without repeats is its own distinct list. */
  lemma {:induction false} DistinctOfDistinct(links: seq<string>)
    requires NoRepeats(links)
    ensures Distinct(links) == links
    decreases |links|
  {
    if links != [] {
      var n := |links| - 1;
      DistinctOfDistinct(links[..n]);
      assert links[n] !in links[..n];
      assert links[..n] + [links[n]] == links;
    }
  }

  /** What one run of the script leaves: the saved list, the duplicates and the distinct links. */
  datatype Report = Report(saved: seq<string>, duplicates: seq<string>, unique: seq<string>, visited: seq<string>)

  /**
   * The whole script: crawl, analyse, then write `all_links` (duplicates
   * included) to the output file (lines 68-69).
   */
  method Run(site: Site) returns (report: Report)
    ensures report.saved == Collected(site, 1, Stop(site))
    ensures report.duplicates == Duplicates(report.saved)
    ensures report.unique == Distinct(report.saved)
    ensures report.visited == Urls(Stop(site))
  {
    var allLinks, visited := Crawl(site);
    report := Report(allLinks, Duplicates(allLinks), Distinct(allLinks), visited);
  }

  /**
   * The saved file is not de-duplicated: a page listing the same property
   * twice gives a saved list with a repeat and a single unique link.
   */
  lemma SavedKeepsRepeats(x: string)
    requires x != []
    ensures Stop([[Some(x), Some(x)]]) == 2
    ensures Collected([[Some(x), Some(x)]], 1, 2) == [x, x]
    ensures Distinct([x, x]) == [x] && Duplicates([x, x]) == [x]
  {
    var site: Site := [[Some(x), Some(x)]];
    assert Anchors(site, 1) != [];
    assert Anchors(site, 2) == [];
    assert Kept([Some(x), Some(x)]) == [x, x] by {
      assert [Some(x), Some(x)][..1] == [Some(x)];
      assert [Some(x)][..0] == [];
    }
    assert Collected(site, 1, 1) == [];
    assert [x, x][..1] == [x];
    assert Count([x, x], x) == 2;
    assert Distinct([x]) == [x] by { assert [x][..0] == []; }
    assert Repeated([x, x], [x]) == [x] by { assert [x][..0] == []; }
  }
}
