/** The Macaulay Library pagination of `fetch_macaulay` (Download_Audio.py
    lines 151-202), exactly as written: `page` advances once per non-empty
    page, `url_list` is rebuilt for every page, so only the last non-empty
    page's URLs are returned, and an empty first page leaves `url_list`
    unbound, which ends in the caught exception and `None`. */
module Macaulay {
  import opened Common

  /** The two URL fields of one search result (`None`: key absent or null). */
  datatype MlItem = MlItem(audioUrl: Option<string>, mediaUrl: Option<string>)

  /** The reply to one page request: `PageFailed` for a network error, an
      error status or a reply whose JSON cannot be read; otherwise
      `results.content` (empty when either key is missing). */
  datatype PageReply = PageFailed | PageOk(content: seq<MlItem>)

  /** The search endpoint for one taxon code: `server[p]` is the reply to
      `page=p`; pages past its end are empty. */
  type Server = seq<PageReply>

  /** The reply to the request for `page`. */
  function Reply(server: Server, page: nat): PageReply
  {
    if page < |server| then server[page] else PageOk([])
  }

  /** The loop runs `while page < 34`. */
  const PageLimit: nat := 34

  /** `item.get("audioUrl") or item.get("mediaUrl")`: the audio URL unless it
      is missing or empty, in which case whatever `mediaUrl` holds. */
  function ItemUrl(item: MlItem): Option<string>
  {
    if item.audioUrl.Some? && item.audioUrl.value != "" then item.audioUrl else item.mediaUrl
  }

  /** The `url_list` one page of items produces. */
  function PageUrls(items: seq<MlItem>): (urls: seq<Option<string>>)
    ensures |urls| == |items|
    ensures forall i {:trigger urls[i]} :: 0 <= i < |items| ==> urls[i] == ItemUrl(items[i])
    decreases |items|
  {
    if items == [] then []
    else PageUrls(items[..|items| - 1]) + [ItemUrl(items[|items| - 1])]
  }

  /** The URLs of a reply's items (none for a failed request). */
  function ReplyUrls(r: PageReply): seq<Option<string>>
  {
    match r
    case PageFailed => []
    case PageOk(items) => PageUrls(items)
  }

  /** A reply with at least one item. */
  predicate Full(r: PageReply)
  {
    r.PageOk? && r.content != []
  }

  /** The last element of a non-empty sequence. */
  function Last(pages: seq<nat>): nat
    requires pages != []
  {
    pages[|pages| - 1]
  }

  /** The inner `for item in results` loop: one URL per item, in order. */
  method CollectPage(results: seq<MlItem>) returns (list: seq<Option<string>>)
    ensures list == PageUrls(results)
  {
    list := [];
    for i := 0 to |results|
      invariant list == PageUrls(results[..i])
    {
      list := list + [ItemUrl(results[i])];
      assert results[..i + 1][..i] == results[..i];
    }
    assert results[..|results|] == results;
  }

  /** The `page` values the loop requests from `page` on: it goes on after a
      full page only. */
  function PagesFrom(server: Server, page: nat): seq<nat>
    decreases PageLimit - page
  {
    if page >= PageLimit then []
    else if Full(Reply(server, page)) then [page] + PagesFrom(server, page + 1)
    else [page]
  }

  /** What the loop returns from `page` on, with `urlList` the value of
      `url_list` so far (`None`: not yet bound, or the implicit `None` of the
      exception handler). */
  function ResultFrom(server: Server, page: nat, urlList: Option<seq<Option<string>>>): Option<seq<Option<string>>>
    decreases PageLimit - page
  {
    if page >= PageLimit then urlList
    else match Reply(server, page)
      case PageFailed => None
      case PageOk(items) =>
        if items == [] then urlList
        else ResultFrom(server, page + 1, Some(PageUrls(items)))
  }

  /** `fetch_macaulay(code)`: the returned list and, as a ghost record, the
      pages requested. */
  method FetchMacaulay(server: Server) returns (urls: Option<seq<Option<string>>>, ghost pages: seq<nat>)
    ensures urls == ResultFrom(server, 1, None)
    ensures pages == PagesFrom(server, 1)
  {
    ghost var result, requested := ResultFrom(server, 1, None), PagesFrom(server, 1);
    var page: nat := 1;
    var urlList: Option<seq<Option<string>>> := None;
    pages := [];
    while page < PageLimit
      invariant result == ResultFrom(server, page, urlList)
      invariant requested == pages + PagesFrom(server, page)
      decreases PageLimit - page
    {
      var reply := Reply(server, page);
      if reply.PageFailed? {
        // `raise_for_status` or `json()` raises; the handler returns `None`
        CrawlStops(server, page, urlList);
        return None, pages + [page];
      }
      var results := reply.content;
      if results == [] {
        CrawlStops(server, page, urlList);
        pages := pages + [page];
        break;
      }
      var list := CollectPage(results);
      CrawlStep(server, page, urlList);
      assert pages + ([page] + PagesFrom(server, page + 1)) == (pages + [page]) + PagesFrom(server, page + 1);
      urlList := Some(list);
      pages := pages + [page];
      page := page + 1;
    }
    if page >= PageLimit {
      CrawlStops(server, page, urlList);
    }
    // an unbound `url_list` raises at the final `len(url_list)`: `None`
    urls := urlList;
  }

  /** Where the crawl stops: at the limit nothing more is requested, and a
      failed or empty page is the last one requested. */
  lemma CrawlStops(server: Server, page: nat, urlList: Option<seq<Option<string>>>)
    requires page >= PageLimit || !Full(Reply(server, page))
    ensures page >= PageLimit ==> PagesFrom(server, page) == [] && ResultFrom(server, page, urlList) == urlList
    ensures page < PageLimit ==> PagesFrom(server, page) == [page]
    ensures page < PageLimit && Reply(server, page).PageFailed? ==> ResultFrom(server, page, urlList) == None
    ensures page < PageLimit && Reply(server, page).PageOk? ==> ResultFrom(server, page, urlList) == urlList
  {
  }

  /** The requests of a crawl from `page`: consecutive page numbers
      `page, page + 1, ...`, all below the limit, every one but the last
      answered with a full page. */
  lemma {:induction false} CrawlPages(server: Server, page: nat)
    requires page < PageLimit
    ensures var p := PagesFrom(server, page);
      && 1 <= |p| <= PageLimit - page
      && (forall i :: 0 <= i < |p| ==> p[i] == page + i)
      && (forall i :: 0 <= i < |p| - 1 ==> Full(Reply(server, p[i])))
    decreases PageLimit - page
  {
    if Full(Reply(server, page)) && page + 1 < PageLimit {
      var p, p' := PagesFrom(server, page), PagesFrom(server, page + 1);
      CrawlPages(server, page + 1);
      assert p == [page] + p';
      forall i | 0 < i < |p| ensures p[i] == p'[i - 1] {
      }
    }
  }

  /** One full page: the crawl goes on from the next page with that page's
      URLs as `url_list`. */
  lemma CrawlStep(server: Server, page: nat, urlList: Option<seq<Option<string>>>)
    requires page < PageLimit && Full(Reply(server, page))
    ensures PagesFrom(server, page) == [page] + PagesFrom(server, page + 1)
    ensures ResultFrom(server, page, urlList) ==
      ResultFrom(server, page + 1, Some(PageUrls(Reply(server, page).content)))
  {
  }

  /** A crawl whose last request failed returns `None`. */
  lemma {:induction false} CrawlEndsFailed(server: Server, page: nat, urlList: Option<seq<Option<string>>>)
    requires page < PageLimit
    ensures var p := PagesFrom(server, page);
      p != [] && (Reply(server, Last(p)).PageFailed? ==> ResultFrom(server, page, urlList) == None)
    decreases PageLimit - page
  {
    if Full(Reply(server, page)) && page + 1 < PageLimit {
      var urls := PageUrls(Reply(server, page).content);
      CrawlStep(server, page, urlList);
      CrawlEndsFailed(server, page + 1, Some(urls));
      assert Last(PagesFrom(server, page)) == Last(PagesFrom(server, page + 1));
    }
  }

  /** A crawl that stopped at an empty page returns the URLs of the page
      before it, or `urlList` when the empty page was its first. */
  lemma {:induction false} CrawlEndsEmpty(server: Server, page: nat, urlList: Option<seq<Option<string>>>)
    requires page < PageLimit
    ensures var p := PagesFrom(server, page);
      p != [] &&
      (Reply(server, Last(p)) == PageOk([]) ==>
         ResultFrom(server, page, urlList) ==
           (if |p| == 1 then urlList else Some(ReplyUrls(Reply(server, p[|p| - 2])))))
    decreases PageLimit - page
  {
    if Full(Reply(server, page)) && page + 1 < PageLimit {
      var urls := PageUrls(Reply(server, page).content);
      var p, p' := PagesFrom(server, page), PagesFrom(server, page + 1);
      CrawlStep(server, page, urlList);
      CrawlEndsEmpty(server, page + 1, Some(urls));
      CrawlPages(server, page + 1);
      assert Last(p) == Last(p');
      if |p'| == 1 {
        assert p[|p| - 2] == page;
      } else {
        assert p[|p| - 2] == p'[|p'| - 2];
      }
    }
  }

  /** A crawl whose last request got a full page ran up to the limit, and
      returns that page's URLs. */
  lemma {:induction false} CrawlEndsFull(server: Server, page: nat, urlList: Option<seq<Option<string>>>)
    requires page < PageLimit
    ensures var p := PagesFrom(server, page);
      p != [] &&
      (Full(Reply(server, Last(p))) ==>
         Last(p) == PageLimit - 1 &&
         ResultFrom(server, page, urlList) == Some(PageUrls(Reply(server, Last(p)).content)))
    decreases PageLimit - page
  {
    if Full(Reply(server, page)) {
      var urls := PageUrls(Reply(server, page).content);
      CrawlStep(server, page, urlList);
      if page + 1 < PageLimit {
        CrawlEndsFull(server, page + 1, Some(urls));
        assert Last(PagesFrom(server, page)) == Last(PagesFrom(server, page + 1));
      }
    }
  }

  /** `fetch_macaulay`'s requests: page 1 first, then 2, 3, ... up to at most
      33 requests, every one but the last answered with a full page. */
  lemma FetchMacaulayPages(server: Server)
    ensures var p := PagesFrom(server, 1);
      && 1 <= |p| <= PageLimit - 1
      && (forall i :: 0 <= i < |p| ==> p[i] == i + 1)
      && (forall i :: 0 <= i < |p| - 1 ==> Full(Reply(server, p[i])))
  {
    CrawlPages(server, 1);
  }

  /** `fetch_macaulay` returns `None` exactly when page 1 is empty or some
      request failed. */
  lemma FetchMacaulayNone(server: Server)
    ensures var p := PagesFrom(server, 1);
      ResultFrom(server, 1, None).None? <==>
        Reply(server, 1) == PageOk([]) || exists i :: 0 <= i < |p| && Reply(server, p[i]).PageFailed?
  {
    var p := PagesFrom(server, 1);
    CrawlPages(server, 1);
    CrawlEndsFailed(server, 1, None);
    CrawlEndsEmpty(server, 1, None);
    CrawlEndsFull(server, 1, None);
    if exists i :: 0 <= i < |p| && Reply(server, p[i]).PageFailed? {
      var i :| 0 <= i < |p| && Reply(server, p[i]).PageFailed?;
      assert i == |p| - 1;
    }
    if Reply(server, 1) == PageOk([]) {
      assert p == [1];
    }
  }

  /** What `fetch_macaulay` returns, when it returns a list, is the URLs of
      the last non-empty page it fetched alone: the last page requested when
      that was full (page 33), otherwise the page just before it. */
  lemma FetchMacaulayLastPage(server: Server)
    ensures var p, r := PagesFrom(server, 1), ResultFrom(server, 1, None);
      r.Some? ==>
        && (Full(Reply(server, Last(p))) ==> Last(p) == PageLimit - 1 && r.value == PageUrls(Reply(server, Last(p)).content))
        && (!Full(Reply(server, Last(p))) ==>
              Last(p) >= 2 && Full(Reply(server, Last(p) - 1)) && r.value == PageUrls(Reply(server, Last(p) - 1).content))
  {
    var p := PagesFrom(server, 1);
    CrawlPages(server, 1);
    CrawlEndsFailed(server, 1, None);
    CrawlEndsEmpty(server, 1, None);
    CrawlEndsFull(server, 1, None);
    if ResultFrom(server, 1, None).Some? && !Full(Reply(server, Last(p))) {
      assert |p| > 1;
      assert p[|p| - 2] == Last(p) - 1;
    }
  }

  // ---------------------------------------------------------------------
  // The loop as its authors evidently meant it: `url_list` created once
  // before the loop and extended by every page, so that the function
  // returns every URL found ("Found ... total recordings") and an empty
  // first page gives an empty list. The requests are the same.

  /** What the intended loop returns from `page` on, with `acc` the URLs
      collected so far. */
  function CollectedFrom(server: Server, page: nat, acc: seq<Option<string>>): Option<seq<Option<string>>>
    decreases PageLimit - page
  {
    if page >= PageLimit then Some(acc)
    else match Reply(server, page)
      case PageFailed => None
      case PageOk(items) =>
        if items == [] then Some(acc)
        else CollectedFrom(server, page + 1, acc + PageUrls(items))
  }

  /** The intended `fetch_macaulay`. */
  method FetchMacaulayIntended(server: Server) returns (urls: Option<seq<Option<string>>>, ghost pages: seq<nat>)
    ensures urls == CollectedFrom(server, 1, [])
    ensures pages == PagesFrom(server, 1)
  {
    var page: nat := 1;
    var urlList: seq<Option<string>> := [];
    pages := [];
    while page < PageLimit
      invariant CollectedFrom(server, 1, []) == CollectedFrom(server, page, urlList)
      invariant PagesFrom(server, 1) == pages + PagesFrom(server, page)
      decreases PageLimit - page
    {
      var reply := Reply(server, page);
      if reply.PageFailed? {
        assert PagesFrom(server, page) == [page];
        return None, pages + [page];
      }
      var results := reply.content;
      if results == [] {
        assert PagesFrom(server, page) == [page];
        pages := pages + [page];
        break;
      }
      var list := CollectPage(results);
      assert pages + PagesFrom(server, page) == (pages + [page]) + PagesFrom(server, page + 1);
      pages := pages + [page];
      urlList := urlList + list;
      page := page + 1;
    }
    assert pages + [] == pages;
    urls := Some(urlList);
  }

  /** The URLs that the replies to `pages` hold, page after page. */
  function UrlsOfPages(server: Server, pages: seq<nat>): seq<Option<string>>
  {
    if pages == [] then []
    else
      ReplyUrls(Reply(server, pages[0])) + UrlsOfPages(server, pages[1..])
  }

  /** The URLs of one page followed by those of the pages after it. */
  lemma UrlsOfPagesCons(server: Server, page: nat, rest: seq<nat>)
    ensures UrlsOfPages(server, [page] + rest) == ReplyUrls(Reply(server, page)) + UrlsOfPages(server, rest)
  {
    assert ([page] + rest)[1..] == rest;
  }

  /** The intended loop returns `None` exactly when its last request failed. */
  lemma {:induction false} CollectedFails(server: Server, page: nat, acc: seq<Option<string>>)
    requires page < PageLimit
    ensures PagesFrom(server, page) != []
    ensures CollectedFrom(server, page, acc).None? <==> Reply(server, Last(PagesFrom(server, page))).PageFailed?
    decreases PageLimit - page
  {
    if Full(Reply(server, page)) && page + 1 < PageLimit {
      CollectedFails(server, page + 1, acc + PageUrls(Reply(server, page).content));
      var p' := PagesFrom(server, page + 1);
      assert Last([page] + p') == Last(p');
    }
  }

  /** One full page in the intended loop: its URLs are added to `acc` and
      the crawl goes on from the next page. */
  lemma CollectStep(server: Server, page: nat, acc: seq<Option<string>>)
    requires page < PageLimit && Full(Reply(server, page))
    ensures PagesFrom(server, page) == [page] + PagesFrom(server, page + 1)
    ensures CollectedFrom(server, page, acc) ==
      CollectedFrom(server, page + 1, acc + PageUrls(Reply(server, page).content))
  {
  }

  lemma ConcatAssoc(a: seq<Option<string>>, b: seq<Option<string>>, c: seq<Option<string>>)
    ensures a + b + c == a + (b + c)
  {
  }

  /** Whatever the intended loop returns is the URLs it started with followed
      by every URL of every page it fetched, in order. */
  lemma {:induction false} CollectedAll(server: Server, page: nat, acc: seq<Option<string>>)
    ensures var r := CollectedFrom(server, page, acc);
      r.Some? ==> r.value == acc + UrlsOfPages(server, PagesFrom(server, page))
    decreases PageLimit - page
  {
    if page < PageLimit {
      if Full(Reply(server, page)) {
        var urls := PageUrls(Reply(server, page).content);
        var rest := UrlsOfPages(server, PagesFrom(server, page + 1));
        CollectedAll(server, page + 1, acc + urls);
        CollectStep(server, page, acc);
        UrlsOfPagesCons(server, page, PagesFrom(server, page + 1));
        ConcatAssoc(acc, urls, rest);
      } else {
        UrlsOfPagesCons(server, page, []);
        assert acc + [] == acc;
      }
    } else {
      assert acc + [] == acc;
    }
  }

  /** Intended behaviour from page 1: the same requests as the code makes,
      `None` only when the last request failed, otherwise every URL of every
      page requested, and an empty first page gives an empty list rather
      than `None`. */
  lemma IntendedFetchMacaulay(server: Server)
    ensures var p, r := PagesFrom(server, 1), CollectedFrom(server, 1, []);
      && p != []
      && (r.None? <==> Reply(server, Last(p)).PageFailed?)
      && (r.Some? ==> r.value == UrlsOfPages(server, p))
      && (Reply(server, 1) == PageOk([]) ==> r == Some([]))
  {
    CollectedFails(server, 1, []);
    CollectedAll(server, 1, []);
    assert [] + UrlsOfPages(server, PagesFrom(server, 1)) == UrlsOfPages(server, PagesFrom(server, 1));
  }

  /** Two results per page on pages 1 to 3, nothing from page 4 on. */
  function ThreePages(): Server
  {
    var two := PageOk([MlItem(Some("a"), None), MlItem(Some("b"), None)]);
    [PageOk([]), two, two, two]
  }

  /** Both loops request pages 1 to 4; as written only page 3's two URLs
      come back, the intended loop returns all six. */
  lemma OnlyLastPageReturned()
    ensures PagesFrom(ThreePages(), 1) == [1, 2, 3, 4]
    ensures ResultFrom(ThreePages(), 1, None) == Some([Some("a"), Some("b")])
    ensures CollectedFrom(ThreePages(), 1, []) ==
      Some([Some("a"), Some("b"), Some("a"), Some("b"), Some("a"), Some("b")])
  {
    var s := ThreePages();
    var two := [MlItem(Some("a"), None), MlItem(Some("b"), None)];
    var urls := [Some("a"), Some("b")];
    assert Reply(s, 1) == PageOk(two) && Reply(s, 2) == PageOk(two) && Reply(s, 3) == PageOk(two);
    assert Reply(s, 4) == PageOk([]);
    assert PageUrls(two) == urls;
    assert PagesFrom(s, 4) == [4];
    assert PagesFrom(s, 3) == [3, 4];
    assert PagesFrom(s, 2) == [2, 3, 4];
    assert ResultFrom(s, 4, Some(urls)) == Some(urls);
    assert ResultFrom(s, 1, None) == Some(urls);
    assert [] + urls == urls;
    assert CollectedFrom(s, 1, []) == Some(urls + urls + urls);
    assert urls + urls + urls == [Some("a"), Some("b"), Some("a"), Some("b"), Some("a"), Some("b")];
  }

  /** As written, a species with no Macaulay recordings makes
      `fetch_macaulay` return `None` (the unbound `url_list`), where an
      empty list is meant. */
  lemma EmptyFirstPageGivesNone()
    ensures ResultFrom([], 1, None) == None
    ensures CollectedFrom([], 1, []) == Some([])
  {
  }
}
