/**
 The depth-first crawler `crawl`: a recursion whose calls all push into one list of visited
 pages, stopped by an optional limit on the length of that list.
 */
module WebCrawl {
  import opened Common

  /** The parts of a parsed URL that the crawler looks at; `port` is empty or carries its colon. */
  datatype Url = Url(hostname: string, port: string, pathname: string, search: string)

  /** A fixed finite web: the pages that answer with HTML, and the links on each of them. */
  datatype Site = Site(protocol: string, hostname: string, html: map<string, seq<Url>>)

  /** Host, port, path and query, without one trailing slash. */
  function NormalizeURL(url: Url): string {
    var hostPath := url.hostname + url.port + url.pathname + url.search;
    if |hostPath| > 0 && hostPath[|hostPath| - 1] == '/' then hostPath[..|hostPath| - 1] else hostPath
  }

  function PageOf(site: Site, url: Url): string { site.protocol + "//" + NormalizeURL(url) }

  /** The HTML pages not yet visited: what the recursion consumes. */
  ghost function Unvisited(site: Site, pages: seq<string>): set<string> {
    site.html.Keys - set p | p in pages
  }

  ghost predicate Full(limit: int, pages: seq<string>) { limit != 0 && |pages| == limit }

  /** The visited list after crawling `url` with `pages` already visited. */
  ghost function Visited(site: Site, limit: int, url: Url, pages: seq<string>): (r: seq<string>)
    ensures pages <= r
    decreases Unvisited(site, pages), 1, 0
  {
    var page := PageOf(site, url);
    if Full(limit, pages) || url.hostname != site.hostname || page in pages then pages
    else if page in site.html then
      assert page in Unvisited(site, pages) && page !in Unvisited(site, pages + [page]);
      assert Unvisited(site, pages + [page]) < Unvisited(site, pages);
      VisitedAll(site, limit, site.html[page], pages + [page])
    else pages + [page]
  }

  /** The visited list after crawling the links of one page in order. */
  ghost function VisitedAll(site: Site, limit: int, urls: seq<Url>, pages: seq<string>): (r: seq<string>)
    ensures pages <= r
    decreases Unvisited(site, pages), 2, |urls|
  {
    if urls == [] then pages
    else
      var next := Visited(site, limit, urls[0], pages);
      assert Unvisited(site, next) <= Unvisited(site, pages);
      VisitedAll(site, limit, urls[1..], next)
  }

  lemma VisitedAllStep(site: Site, limit: int, urls: seq<Url>, i: nat, pages: seq<string>)
    requires i < |urls|
    ensures VisitedAll(site, limit, urls[i..], pages) ==
            VisitedAll(site, limit, urls[i + 1..], Visited(site, limit, urls[i], pages))
  {
    assert urls[i..][1..] == urls[i + 1..];
  }

  lemma VisitShrinks(site: Site, before: seq<string>, page: string, after: seq<string>)
    requires page in site.html && page !in before && before + [page] <= after
    ensures Unvisited(site, after) < Unvisited(site, before)
  {
    assert after == (before + [page]) + after[|before| + 1..];
    assert page in Unvisited(site, before) && page !in Unvisited(site, after);
  }

  class Crawler {
    const site: Site
    const limit: int
    var pages: seq<string>

    constructor (site: Site, limit: int)
      ensures this.site == site && this.limit == limit && pages == []
    {
      this.site := site;
      this.limit := limit;
      pages := [];
    }

    /** The source's recursion over the shared list. */
    method Crawl(current: Url)
      modifies this
      ensures pages == Visited(site, limit, current, old(pages))
      decreases Unvisited(site, pages), 1
    {
      if limit != 0 && |pages| == limit { return; }
      if site.hostname != current.hostname { return; }
      var page := PageOf(site, current);
      if page in pages { return; }
      pages := pages + [page];
      if page !in site.html { return; }
      ghost var start := pages;
      ghost var result := Visited(site, limit, current, old(pages));
      var nextURLs := site.html[page];
      for i := 0 to |nextURLs|
        invariant start <= pages
        invariant VisitedAll(site, limit, nextURLs[i..], pages) == result
      {
        VisitedAllStep(site, limit, nextURLs, i, pages);
        VisitShrinks(site, old(pages), page, pages);
        Crawl(nextURLs[i]);
      }
    }
  }

  method Run(site: Site, start: Url, limit: int) returns (pages: seq<string>)
    ensures pages == Visited(site, limit, start, []) && CrawlOrder(site, start, limit, pages)
  {
    var crawler := new Crawler(site, limit);
    crawler.Crawl(start);
    pages := crawler.pages;
    CrawlIsInOrder(site, start, limit);
  }

  // ---------------------------------------------------------------- reachability

  /** `q` is the page of a same-host link on the HTML page `p`. */
  ghost predicate Links(site: Site, p: string, q: string) {
    p in site.html && exists url :: url in site.html[p] && url.hostname == site.hostname && PageOf(site, url) == q
  }

  ghost predicate IsPath(site: Site, path: seq<string>) {
    path != [] && forall i :: 0 < i < |path| ==> Links(site, path[i - 1], path[i])
  }

  /** `page` is found from `start` by following same-host links through HTML pages. */
  ghost predicate Reachable(site: Site, start: Url, page: string) {
    start.hostname == site.hostname &&
    exists path :: IsPath(site, path) && path[0] == PageOf(site, start) && path[|path| - 1] == page
  }

  ghost predicate NoDuplicates(pages: seq<string>) {
    forall i, j :: 0 <= i < j < |pages| ==> pages[i] != pages[j]
  }

  lemma {:induction false} VisitedOnce(site: Site, limit: int, url: Url, pages: seq<string>)
    requires NoDuplicates(pages)
    ensures NoDuplicates(Visited(site, limit, url, pages))
    decreases Unvisited(site, pages), 1, 0
  {
    var page := PageOf(site, url);
    if !(Full(limit, pages) || url.hostname != site.hostname || page in pages) && page in site.html {
      assert page in Unvisited(site, pages) && page !in Unvisited(site, pages + [page]);
      VisitedAllOnce(site, limit, site.html[page], pages + [page]);
    }
  }

  lemma {:induction false} VisitedAllOnce(site: Site, limit: int, urls: seq<Url>, pages: seq<string>)
    requires NoDuplicates(pages)
    ensures NoDuplicates(VisitedAll(site, limit, urls, pages))
    decreases Unvisited(site, pages), 2, |urls|
  {
    if urls != [] {
      VisitedOnce(site, limit, urls[0], pages);
      var next := Visited(site, limit, urls[0], pages);
      assert Unvisited(site, next) <= Unvisited(site, pages);
      VisitedAllOnce(site, limit, urls[1..], next);
    }
  }

  /** Every page added since `before` has its same-host links in `after`. */
  ghost predicate ClosedSince(site: Site, before: seq<string>, after: seq<string>) {
    forall p, q :: p in after && p !in before && Links(site, p, q) ==> q in after
  }

  lemma ClosedTwice(site: Site, a: seq<string>, b: seq<string>, c: seq<string>)
    requires b <= c && ClosedSince(site, a, b) && ClosedSince(site, b, c)
    ensures ClosedSince(site, a, c)
  {
    forall p, q | p in c && p !in a && Links(site, p, q) ensures q in c {
      if p in b { assert q in b; }
    }
  }

  /** An unlimited call leaves no added page with an unvisited link, although its callers' pages are unfinished. */
  lemma {:induction false} VisitedCloses(site: Site, limit: int, url: Url, pages: seq<string>)
    requires limit <= 0
    ensures
      var r := Visited(site, limit, url, pages);
      ClosedSince(site, pages, r) && (url.hostname == site.hostname ==> PageOf(site, url) in r)
    decreases Unvisited(site, pages), 1, 0
  {
    var page := PageOf(site, url);
    if url.hostname == site.hostname && page !in pages && page in site.html {
      assert page in Unvisited(site, pages) && page !in Unvisited(site, pages + [page]);
      VisitedAllCloses(site, limit, site.html[page], pages + [page]);
      var r := Visited(site, limit, url, pages);
      assert (pages + [page])[|pages|] == page;
      forall p, q | p in r && p !in pages && Links(site, p, q) ensures q in r {
        if p == page {
        } else {
          assert p !in pages + [page];
        }
      }
    }
  }

  lemma {:induction false} VisitedAllCloses(site: Site, limit: int, urls: seq<Url>, pages: seq<string>)
    requires limit <= 0
    ensures
      var r := VisitedAll(site, limit, urls, pages);
      ClosedSince(site, pages, r) &&
      forall u :: u in urls && u.hostname == site.hostname ==> PageOf(site, u) in r
    decreases Unvisited(site, pages), 2, |urls|
  {
    if urls != [] {
      VisitedCloses(site, limit, urls[0], pages);
      var next := Visited(site, limit, urls[0], pages);
      assert Unvisited(site, next) <= Unvisited(site, pages);
      VisitedAllCloses(site, limit, urls[1..], next);
      ClosedTwice(site, pages, next, VisitedAll(site, limit, urls[1..], next));
    }
  }

  lemma PathSnoc(site: Site, path: seq<string>, q: string)
    requires IsPath(site, path) && Links(site, path[|path| - 1], q)
    ensures IsPath(site, path + [q])
  {
    var longer := path + [q];
    forall i | 0 < i < |longer| ensures Links(site, longer[i - 1], longer[i]) {
      if i < |path| {
        assert Links(site, path[i - 1], path[i]) && longer[i - 1] == path[i - 1] && longer[i] == path[i];
      } else {
        assert longer[i - 1] == path[|path| - 1] && longer[i] == q;
      }
    }
  }

  lemma PathExtends(site: Site, start: Url, p: string, q: string)
    requires Links(site, p, q)
    ensures Reachable(site, start, p) ==> Reachable(site, start, q)
  {
    if !Reachable(site, start, p) { return; }
    var path :| IsPath(site, path) && path[0] == PageOf(site, start) && path[|path| - 1] == p;
    assert IsPath(site, path);
    PathSnoc(site, path, q);
    var longer := path + [q];
    assert longer[0] == PageOf(site, start) && longer[|longer| - 1] == q;
  }

  /** Any visited page was there before, is the page itself, or is reachable. */
  lemma {:induction false} VisitedIsReachable(site: Site, limit: int, start: Url, url: Url, pages: seq<string>)
    requires url.hostname == site.hostname ==> Reachable(site, start, PageOf(site, url))
    ensures forall p :: p in Visited(site, limit, url, pages) && p !in pages ==> Reachable(site, start, p)
    decreases Unvisited(site, pages), 1, 0
  {
    var page := PageOf(site, url);
    if !(Full(limit, pages) || url.hostname != site.hostname || page in pages) && page in site.html {
      assert page in Unvisited(site, pages) && page !in Unvisited(site, pages + [page]);
      forall u | u in site.html[page] && u.hostname == site.hostname
        ensures Reachable(site, start, PageOf(site, u))
      {
        PathExtends(site, start, page, PageOf(site, u));
      }
      VisitedAllReachable(site, limit, start, site.html[page], pages + [page]);
    }
  }

  lemma {:induction false} VisitedAllReachable(site: Site, limit: int, start: Url, urls: seq<Url>, pages: seq<string>)
    requires forall u :: u in urls && u.hostname == site.hostname ==> Reachable(site, start, PageOf(site, u))
    ensures forall p :: p in VisitedAll(site, limit, urls, pages) && p !in pages ==> Reachable(site, start, p)
    decreases Unvisited(site, pages), 2, |urls|
  {
    if urls != [] {
      VisitedIsReachable(site, limit, start, urls[0], pages);
      var next := Visited(site, limit, urls[0], pages);
      assert Unvisited(site, next) <= Unvisited(site, pages);
      VisitedAllReachable(site, limit, start, urls[1..], next);
    }
  }

  lemma {:induction false} PathStaysIn(site: Site, pages: seq<string>, path: seq<string>, n: nat)
    requires ClosedSince(site, [], pages) && IsPath(site, path) && path[0] in pages && n < |path|
    ensures path[n] in pages
    decreases n
  {
    if n > 0 {
      PathStaysIn(site, pages, path, n - 1);
      assert Links(site, path[n - 1], path[n]);
    }
  }

  /** With no limit (zero or negative): duplicate-free, and exactly the reachable pages. */
  lemma UnlimitedIsReachable(site: Site, limit: int, start: Url)
    requires limit <= 0
    ensures
      var r := Visited(site, limit, start, []);
      NoDuplicates(r) && forall p :: p in r <==> Reachable(site, start, p)
  {
    var r := Visited(site, limit, start, []);
    VisitedOnce(site, limit, start, []);
    VisitedCloses(site, limit, start, []);
    if start.hostname == site.hostname {
      var trivial := [PageOf(site, start)];
      assert IsPath(site, trivial) && trivial[|trivial| - 1] == PageOf(site, start);
      VisitedIsReachable(site, limit, start, start, []);
      forall p | Reachable(site, start, p) ensures p in r {
        var path :| IsPath(site, path) && path[0] == PageOf(site, start) && path[|path| - 1] == p;
        PathStaysIn(site, r, path, |path| - 1);
      }
    }
  }

  // ---------------------------------------------------------------- the limit

  function Take(pages: seq<string>, k: nat): seq<string> { if |pages| <= k then pages else pages[..k] }

  lemma {:induction false} FullStays(site: Site, limit: int, urls: seq<Url>, pages: seq<string>)
    requires Full(limit, pages)
    ensures VisitedAll(site, limit, urls, pages) == pages
    decreases |urls|
  {
    if urls != [] { FullStays(site, limit, urls[1..], pages); }
  }

  lemma {:induction false} LimitedVisit(site: Site, k: nat, url: Url, pages: seq<string>)
    requires 0 < k && |pages| <= k
    ensures Visited(site, k, url, pages) == Take(Visited(site, 0, url, pages), k)
    decreases Unvisited(site, pages), 1, 0
  {
    var page := PageOf(site, url);
    if |pages| < k && url.hostname == site.hostname && page !in pages && page in site.html {
      assert page in Unvisited(site, pages) && page !in Unvisited(site, pages + [page]);
      LimitedVisitAll(site, k, site.html[page], pages + [page]);
    }
  }

  lemma {:induction false} LimitedVisitAll(site: Site, k: nat, urls: seq<Url>, pages: seq<string>)
    requires 0 < k && |pages| <= k
    ensures VisitedAll(site, k, urls, pages) == Take(VisitedAll(site, 0, urls, pages), k)
    decreases Unvisited(site, pages), 2, |urls|
  {
    if urls != [] {
      LimitedVisit(site, k, urls[0], pages);
      var next := Visited(site, 0, urls[0], pages);
      assert Unvisited(site, next) <= Unvisited(site, pages);
      if |next| <= k {
        LimitedVisitAll(site, k, urls[1..], next);
      } else {
        FullStays(site, k, urls[1..], next[..k]);
        assert next <= VisitedAll(site, 0, urls[1..], next);
      }
    }
  }

  /** A positive limit returns the first pages of the unlimited crawl, in the same order. */
  lemma LimitIsPrefix(site: Site, start: Url, k: nat)
    requires 0 < k
    ensures
      var full := Visited(site, 0, start, []);
      Visited(site, k, start, []) == full[..if k < |full| then k else |full|]
  {
    LimitedVisit(site, k, start, []);
  }

  // ---------------------------------------------------------------- the order of the list

  /** The page of the first same-host link that is not in `seen`. */
  function FirstNew(site: Site, urls: seq<Url>, seen: seq<string>): Option<string> {
    if urls == [] then None
    else if urls[0].hostname == site.hostname && PageOf(site, urls[0]) !in seen then Some(PageOf(site, urls[0]))
    else FirstNew(site, urls[1..], seen)
  }

  function LinksOn(site: Site, page: string): seq<Url> { if page in site.html then site.html[page] else [] }

  /** The first new link of the last of these pages that has one. */
  function NextFrom(site: Site, pages: seq<string>, seen: seq<string>): Option<string> {
    if pages == [] then None
    else
      var last := |pages| - 1;
      var found := FirstNew(site, LinksOn(site, pages[last]), seen);
      if found.Some? then found else NextFrom(site, pages[..last], seen)
  }

  /** Each page from `from` on is the next one after those before it, looked for on the pages added before it and then in `urls`. */
  ghost predicate InOrder(site: Site, urls: seq<Url>, from: nat, r: seq<string>) {
    from <= |r| && forall n :: from <= n < |r| ==> NextOrLink(site, urls, r[from..n], r[..n]) == Some(r[n])
  }

  function NextOrLink(site: Site, urls: seq<Url>, added: seq<string>, seen: seq<string>): Option<string> {
    var next := NextFrom(site, added, seen);
    if next.Some? then next else FirstNew(site, urls, seen)
  }

  /** The list ended for want of new links, or because it is full. */
  ghost predicate Exhausted(site: Site, limit: int, urls: seq<Url>, from: nat, r: seq<string>) {
    from <= |r| && (Full(limit, r) || NextOrLink(site, urls, r[from..], r) == None)
  }

  lemma NotNew(site: Site, url: Url, seen: seq<string>)
    requires url.hostname != site.hostname || PageOf(site, url) in seen
    ensures FirstNew(site, [url], seen) == None
  {
    assert [url][1..] == [];
  }

  lemma {:induction false} NextFromConcat(site: Site, a: seq<string>, b: seq<string>, seen: seq<string>)
    ensures NextFrom(site, a + b, seen) == if NextFrom(site, b, seen).Some? then NextFrom(site, b, seen) else NextFrom(site, a, seen)
    decreases |b|
  {
    if b == [] {
      assert a + b == a;
    } else {
      var last := |b| - 1;
      assert (a + b)[..|a| + last] == a + b[..last] && (a + b)[|a| + last] == b[last];
      NextFromConcat(site, a, b[..last], seen);
    }
  }

  lemma {:induction false} FirstNewStays(site: Site, urls: seq<Url>, seen: seq<string>, more: seq<string>)
    requires seen <= more
    ensures FirstNew(site, urls, seen) == None ==> FirstNew(site, urls, more) == None
    decreases |urls|
  {
    if urls != [] { FirstNewStays(site, urls[1..], seen, more); }
  }

  lemma {:induction false} NextFromStays(site: Site, pages: seq<string>, seen: seq<string>, more: seq<string>)
    requires seen <= more
    ensures NextFrom(site, pages, seen) == None ==> NextFrom(site, pages, more) == None
    decreases |pages|
  {
    if pages != [] {
      FirstNewStays(site, LinksOn(site, pages[|pages| - 1]), seen, more);
      NextFromStays(site, pages[..|pages| - 1], seen, more);
    }
  }

  /** One call adds its page first, and then pages in order, until none is left or the list is full. */
  lemma {:induction false} VisitedInOrder(site: Site, limit: int, url: Url, pages: seq<string>)
    ensures InOrder(site, [url], |pages|, Visited(site, limit, url, pages))
    ensures Exhausted(site, limit, [url], |pages|, Visited(site, limit, url, pages))
    decreases Unvisited(site, pages), 1, 0
  {
    var page, r := PageOf(site, url), Visited(site, limit, url, pages);
    assert [url][1..] == [];
    if !(Full(limit, pages) || url.hostname != site.hostname || page in pages) {
      if page in site.html {
        assert page in Unvisited(site, pages) && page !in Unvisited(site, pages + [page]);
        VisitedAllInOrder(site, limit, site.html[page], pages + [page]);
      }
      assert (pages + [page])[|pages| + 1..] == [];
      PageThenLinks(site, limit, url, pages, r);
    } else {
      assert r == pages && r[|pages|..] == [];
      if !Full(limit, pages) { NotNew(site, url, pages); }
    }
  }

  lemma PageThenLinks(site: Site, limit: int, url: Url, pages: seq<string>, r: seq<string>)
    requires url.hostname == site.hostname && PageOf(site, url) !in pages && pages + [PageOf(site, url)] <= r
    requires
      var links, from := LinksOn(site, PageOf(site, url)), |pages| + 1;
      InOrder(site, links, from, r) && Exhausted(site, limit, links, from, r)
    ensures InOrder(site, [url], |pages|, r) && Exhausted(site, limit, [url], |pages|, r)
  {
    var page := PageOf(site, url);
    forall n | |pages| <= n < |r| ensures NextOrLink(site, [url], r[|pages|..n], r[..n]) == Some(r[n]) {
      if n > |pages| {
        OwnPageFirst(site, url, pages, r, n);
      } else {
        assert r[..n] == pages && r[|pages|..n] == [];
      }
    }
    OwnPageFirst(site, url, pages, r, |r|);
    assert r[..|r|] == r && r[|pages|..|r|] == r[|pages|..] && r[|pages| + 1..|r|] == r[|pages| + 1..];
  }

  /** Behind the page itself, its links stand for the link that led to it. */
  lemma OwnPageFirst(site: Site, url: Url, pages: seq<string>, r: seq<string>, n: nat)
    requires pages + [PageOf(site, url)] <= r && |pages| < n <= |r|
    ensures
      NextOrLink(site, [url], r[|pages|..n], r[..n]) ==
      NextOrLink(site, LinksOn(site, PageOf(site, url)), r[|pages| + 1..n], r[..n])
  {
    var page, added := PageOf(site, url), r[|pages| + 1..n];
    assert r[|pages|] == page && r[|pages|..n] == [page] + added;
    NextFromConcat(site, [page], added, r[..n]);
    assert [page][..0] == [] && [url][1..] == [];
    assert r[..n][|pages|] == page;
    assert NextFrom(site, [page], r[..n]) == FirstNew(site, LinksOn(site, page), r[..n]);
    NotNew(site, url, r[..n]);
  }

  lemma {:induction false} VisitedAllInOrder(site: Site, limit: int, urls: seq<Url>, pages: seq<string>)
    ensures InOrder(site, urls, |pages|, VisitedAll(site, limit, urls, pages))
    ensures Exhausted(site, limit, urls, |pages|, VisitedAll(site, limit, urls, pages))
    decreases Unvisited(site, pages), 2, |urls|
  {
    if urls != [] {
      var next := Visited(site, limit, urls[0], pages);
      assert Unvisited(site, next) <= Unvisited(site, pages);
      VisitedInOrder(site, limit, urls[0], pages);
      VisitedAllInOrder(site, limit, urls[1..], next);
      var r := VisitedAll(site, limit, urls[1..], next);
      if Full(limit, next) { FullStays(site, limit, urls[1..], next); }
      LinkThenRest(site, limit, urls, pages, next, r);
    }
  }

  lemma LinkThenRest(site: Site, limit: int, urls: seq<Url>, pages: seq<string>, next: seq<string>, r: seq<string>)
    requires urls != [] && pages <= next <= r && (Full(limit, next) ==> r == next)
    requires InOrder(site, [urls[0]], |pages|, next) && Exhausted(site, limit, [urls[0]], |pages|, next)
    requires InOrder(site, urls[1..], |next|, r) && Exhausted(site, limit, urls[1..], |next|, r)
    ensures InOrder(site, urls, |pages|, r) && Exhausted(site, limit, urls, |pages|, r)
  {
    forall n | |pages| <= n < |r| ensures NextOrLink(site, urls, r[|pages|..n], r[..n]) == Some(r[n]) {
      if n < |next| {
        assert r[..n] == next[..n] && r[|pages|..n] == next[|pages|..n] && r[n] == next[n];
        FirstLinkFound(site, urls, next[..n]);
      } else {
        RestOnly(site, urls, pages, next, r, n);
      }
    }
    if !Full(limit, next) {
      RestOnly(site, urls, pages, next, r, |r|);
      assert r[..|r|] == r && r[|pages|..|r|] == r[|pages|..] && r[|next|..|r|] == r[|next|..];
    }
  }

  lemma FirstLinkFound(site: Site, urls: seq<Url>, seen: seq<string>)
    requires urls != []
    ensures
      var first := FirstNew(site, [urls[0]], seen);
      FirstNew(site, urls, seen) == if first.Some? then first else FirstNew(site, urls[1..], seen)
  {
    assert [urls[0]][1..] == [];
  }

  /** Once the first link is used up, the search goes on with the others. */
  lemma RestOnly(site: Site, urls: seq<Url>, pages: seq<string>, next: seq<string>, r: seq<string>, n: nat)
    requires urls != [] && pages <= next <= r && |next| <= n <= |r|
    requires NextOrLink(site, [urls[0]], next[|pages|..], next) == None
    ensures NextOrLink(site, urls, r[|pages|..n], r[..n]) == NextOrLink(site, urls[1..], r[|next|..n], r[..n])
  {
    var own, more := next[|pages|..], r[|next|..n];
    assert r[|pages|..n] == own + more;
    NextFromConcat(site, own, more, r[..n]);
    NextFromStays(site, own, next, r[..n]);
    FirstNewStays(site, [urls[0]], next, r[..n]);
    FirstLinkFound(site, urls, r[..n]);
  }

  ghost predicate IsNext(site: Site, r: seq<string>, n: nat)
    requires n < |r|
  {
    NextFrom(site, r[..n], r[..n]) == Some(r[n])
  }

  /**
   What a crawl returns, said without the recursion: the start page, then always the first new same-host link of
   the last page that has one, until there is none or the limit is reached.
   */
  ghost predicate CrawlOrder(site: Site, start: Url, limit: int, r: seq<string>) {
    if start.hostname != site.hostname then r == []
    else
      r != [] && r[0] == PageOf(site, start) && (limit > 0 ==> |r| <= limit) &&
      (forall n :: 0 < n < |r| ==> IsNext(site, r, n)) &&
      (|r| == limit || NextFrom(site, r, r) == None)
  }

  lemma CrawlIsInOrder(site: Site, start: Url, limit: int)
    ensures CrawlOrder(site, start, limit, Visited(site, limit, start, []))
  {
    var r := Visited(site, limit, start, []);
    if start.hostname == site.hostname {
      VisitedInOrder(site, limit, start, []);
      StartsTheList(site, start, limit);
      forall n | 0 < n < |r| ensures IsNext(site, r, n) { AfterTheStart(site, start, r, n); }
      EndsTheList(site, start, limit, r);
    }
  }

  lemma StartsTheList(site: Site, start: Url, limit: int)
    requires start.hostname == site.hostname
    ensures
      var r := Visited(site, limit, start, []);
      r != [] && r[0] == PageOf(site, start) && (limit > 0 ==> |r| <= limit)
  {
    if limit > 0 { LimitIsPrefix(site, start, limit); }
  }

  lemma EndsTheList(site: Site, start: Url, limit: int, r: seq<string>)
    requires r != [] && r[0] == PageOf(site, start) && Exhausted(site, limit, [start], 0, r)
    ensures |r| == limit || NextFrom(site, r, r) == None
  {
    AfterTheStart(site, start, r, |r|);
    assert r[..|r|] == r && r[0..] == r && r[0..|r|] == r;
  }

  lemma AfterTheStart(site: Site, start: Url, r: seq<string>, n: nat)
    requires 0 < n <= |r| && r[0] == PageOf(site, start)
    ensures NextOrLink(site, [start], r[0..n], r[..n]) == NextFrom(site, r[..n], r[..n])
  {
    assert r[0..n] == r[..n] && r[..n][0] == r[0];
    NotNew(site, start, r[..n]);
  }

  /** There is only one such list. */
  lemma CrawlOrderFixes(site: Site, start: Url, limit: int, a: seq<string>, b: seq<string>)
    requires CrawlOrder(site, start, limit, a) && CrawlOrder(site, start, limit, b)
    ensures a == b
  {
    if start.hostname == site.hostname {
      if |a| <= |b| { ShorterIsAll(site, start, limit, a, b); } else { ShorterIsAll(site, start, limit, b, a); }
    }
  }

  lemma ShorterIsAll(site: Site, start: Url, limit: int, a: seq<string>, b: seq<string>)
    requires CrawlOrder(site, start, limit, a) && CrawlOrder(site, start, limit, b) && start.hostname == site.hostname
    requires |a| <= |b|
    ensures a == b
  {
    SamePrefix(site, a, b, |a|);
    assert a[..|a|] == a == b[..|a|];
    assert |a| < |b| ==> IsNext(site, b, |a|);
  }

  lemma {:induction false} SamePrefix(site: Site, a: seq<string>, b: seq<string>, n: nat)
    requires 0 < n <= |a| <= |b| && a[0] == b[0]
    requires forall k :: 0 < k < n ==> IsNext(site, a, k) && IsNext(site, b, k)
    ensures a[..n] == b[..n]
    decreases n
  {
    if n > 1 {
      var m := n - 1;
      SamePrefix(site, a, b, m);
      assert IsNext(site, a, m) && IsNext(site, b, m);
      assert a[..n] == a[..m] + [a[m]] && b[..n] == b[..m] + [b[m]];
    }
  }

  /** A trailing slash on a path makes no difference. */
  lemma SlashIsIgnored(site: Site, url: Url)
    requires url.search == "" && !EndsInSlash(url.hostname + url.port + url.pathname)
    ensures PageOf(site, url) == PageOf(site, url.(pathname := url.pathname + "/")) == site.protocol + "//" + (url.hostname + url.port + url.pathname)
  {
    var text := url.hostname + url.port + url.pathname;
    assert text + url.search == text;
    assert url.hostname + url.port + (url.pathname + "/") + url.search == text + "/";
    assert (text + "/")[..|text|] == text;
  }

  predicate EndsInSlash(s: string) { |s| > 0 && s[|s| - 1] == '/' }
}
