/** Page scraping and the crawl loop (`scrape_page`, `scrape_all_pages`):
    container discovery, per-card extraction, and following "next" links up
    to a page limit. */
module Pager {
  import opened Options
  import opened Dom
  import opened Cascade
  import opened Fields
  import opened Fetcher
  import opened Config
  import opened Products

  predicate NonEmpty(es: seq<Node>) { |es| > 0 }

  /** Container discovery: the match list of the first container selector that
      matches anything on the page; empty when none does. */
  function FindContainers(doc: Node, sels: seq<Selector>): (r: seq<Node>)
    ensures r == [] <==> forall i :: 0 <= i < |sels| ==> SelectAll(doc, sels[i]) == []
    ensures forall i :: FirstListWith(doc, sels, NonEmpty, i) ==> r == SelectAll(doc, sels[i])
  {
    match FirstList(doc, sels, NonEmpty)
    case Some(es) => es
    case None => []
  }

  /** A product the page keeps: it has a title, and its description respects the bound. */
  predicate Retained(p: Product) {
    HasTitle(p) && DescriptionBound(p.description)
  }

  /** The products of a list, in order, without those whose title is the sentinel. */
  function Titled(ps: seq<Product>): (r: seq<Product>)
    ensures |r| <= |ps|
  {
    if |ps| == 0 then []
    else if HasTitle(ps[0]) then [ps[0]] + Titled(ps[1..])
    else Titled(ps[1..])
  }

  /** The kept products are exactly the listed ones that have a title. */
  lemma {:induction false} TitledMembers(ps: seq<Product>)
    ensures forall p :: p in Titled(ps) <==> p in ps && HasTitle(p)
    decreases |ps|
  {
    if |ps| > 0 {
      TitledMembers(ps[1..]);
      assert forall p :: p in ps <==> p == ps[0] || p in ps[1..];
    }
  }

  /** Filtering keeps order: the titled products of a concatenation are the
      titled products of each part, one after the other. */
  lemma {:induction false} TitledAppend(a: seq<Product>, b: seq<Product>)
    ensures Titled(a + b) == Titled(a) + Titled(b)
    decreases |a|
  {
    if |a| == 0 {
      assert a + b == b;
    } else {
      TitledAppend(a[1..], b);
      assert (a + b)[0] == a[0] && (a + b)[1..] == a[1..] + b;
    }
  }

  /** A single product is kept exactly when it has a title. */
  lemma TitledSingle(p: Product)
    ensures Titled([p]) == if HasTitle(p) then [p] else []
  {
    assert [p][1..] == [];
  }

  /** Two product lists agree position by position on the mandatory fields. */
  predicate CoreAgree(xs: seq<Product>, ys: seq<Product>) {
    |xs| == |ys| && forall i :: 0 <= i < |xs| ==> SameCore(xs[i], ys[i])
  }

  /** Extraction of every container of a page, in order, threading the session
      through any detail fetches; only products with a title are kept. */
  function ExtractAll(env: Env, scr: Scraper, log: Log, elems: seq<Node>, fetchDetailed: bool): (r: (seq<Product>, Log))
    ensures |r.0| <= |elems|
    ensures forall p :: p in r.0 ==> Retained(p)
    ensures log.requests <= r.1.requests
    decreases |elems|
  {
    if |elems| == 0 then ([], log)
    else
      var first := ExtractProduct(env, scr, log, elems[0], fetchDetailed);
      var rest := ExtractAll(env, scr, first.1, elems[1..], fetchDetailed);
      (if HasTitle(first.0) then [first.0] + rest.0 else rest.0, rest.1)
  }

  /** The listing products of a sequence of containers, in order. */
  function Listings(scr: Scraper, elems: seq<Node>, join: (string, string) -> string): (r: seq<Product>)
    ensures |r| == |elems|
    ensures forall i :: 0 <= i < |elems| ==> r[i] == ListingProduct(scr, elems[i], join)
  {
    if |elems| == 0 then [] else [ListingProduct(scr, elems[0], join)] + Listings(scr, elems[1..], join)
  }

  /** Without detail fetching a page's extraction issues no request, and keeps
      exactly the listing products that have a title, in container order. */
  lemma {:induction false} ExtractAllWithoutDetails(env: Env, scr: Scraper, log: Log, elems: seq<Node>)
    ensures ExtractAll(env, scr, log, elems, false) == (Titled(Listings(scr, elems, env.join)), log)
    decreases |elems|
  {
    if |elems| > 0 {
      var ls := Listings(scr, elems, env.join);
      ExtractAllWithoutDetails(env, scr, log, elems[1..]);
      assert ls[0] == ListingProduct(scr, elems[0], env.join);
      assert ls[1..] == Listings(scr, elems[1..], env.join);
    }
  }

  /** With or without detail fetching, a page's extraction keeps the same products
      as the listing alone, in the same order, with the same mandatory fields:
      enrichment never changes a title, so it never changes which cards are kept. */
  lemma {:induction false} ExtractAllKeepsListingCore(env: Env, scr: Scraper, log: Log, elems: seq<Node>, fetchDetailed: bool)
    ensures CoreAgree(ExtractAll(env, scr, log, elems, fetchDetailed).0, Titled(Listings(scr, elems, env.join)))
    decreases |elems|
  {
    if |elems| > 0 {
      var first := ExtractProduct(env, scr, log, elems[0], fetchDetailed);
      var q := ListingProduct(scr, elems[0], env.join);
      var listed := Listings(scr, elems[1..], env.join);
      var rest := ExtractAll(env, scr, first.1, elems[1..], fetchDetailed).0;
      ExtractAllKeepsListingCore(env, scr, first.1, elems[1..], fetchDetailed);
      assert ExtractAll(env, scr, log, elems, fetchDetailed).0
             == if HasTitle(first.0) then [first.0] + rest else rest;
      assert Listings(scr, elems, env.join) == [q] + listed;
      TitledAppend([q], listed);
      TitledSingle(q);
      assert SameCore(first.0, q);
      if HasTitle(q) {
        CoreCons(first.0, rest, q, Titled(listed));
      }
    }
  }

  lemma CoreCons(a: Product, xs: seq<Product>, b: Product, ys: seq<Product>)
    requires SameCore(a, b) && CoreAgree(xs, ys)
    ensures CoreAgree([a] + xs, [b] + ys)
  {
    assert forall i :: 1 <= i < |xs| + 1 ==> ([a] + xs)[i] == xs[i - 1] && ([b] + ys)[i] == ys[i - 1];
  }

  /** `scrape_page(url, fetch_detailed)`: one fetch of the page; no products when
      it is unavailable or empty or no container selector matches; otherwise the
      titled products of the first matching container list, in order. */
  function ScrapePage(env: Env, scr: Scraper, log: Log, url: Url, fetchDetailed: bool): (r: (seq<Product>, Log))
    ensures forall p :: p in r.0 ==> Retained(p)
    ensures log.requests <= r.1.requests && |log.requests| < |r.1.requests|
    ensures r.1.requests[|log.requests|] == url
    ensures r.0 != [] ==> HasContent(Fetch(env, log, url, DefaultRetries).0)
    ensures !fetchDetailed ==> r.1 == Fetch(env, log, url, DefaultRetries).1
    ensures !HasContent(Fetch(env, log, url, DefaultRetries).0) ==> r == ([], Fetch(env, log, url, DefaultRetries).1)
    ensures var body := Fetch(env, log, url, DefaultRetries).0;
            HasContent(body) ==>
              var es := FindContainers(env.parse(body.value), scr.tables.containers);
              && (es == [] ==> r == ([], Fetch(env, log, url, DefaultRetries).1))
              && CoreAgree(r.0, Titled(Listings(scr, es, env.join)))
              && (!fetchDetailed ==> r.0 == Titled(Listings(scr, es, env.join)))
  {
    FetchBounds(env, log, url, DefaultRetries);
    var (body, log1) := Fetch(env, log, url, DefaultRetries);
    if !HasContent(body) then ([], log1)
    else
      var es := FindContainers(env.parse(body.value), scr.tables.containers);
      if es == [] then ([], log1)
      else
        ExtractAllWithoutDetails(env, scr, log1, es);
        ExtractAllKeepsListingCore(env, scr, log1, es, fetchDetailed);
        ExtractAll(env, scr, log1, es, fetchDetailed)
  }

  /** Why a crawl ended. */
  datatype Stop =
    | EmptyPage      // a page gave no products (unavailable, empty, or no titled product)
    | NoNextLink     // the re-fetched page had no "next" link with an href
    | RefetchFailed  // re-fetching the page for its "next" link gave no content
    | PageLimit      // the page counter passed `max_pages`
    | NoUrl          // the URL to visit was empty

  function Flatten(pages: seq<seq<Product>>): seq<Product> {
    if |pages| == 0 then [] else Flatten(pages[..|pages| - 1]) + pages[|pages| - 1]
  }

  /** Each visited URL fetched twice in a row: once to scrape, once for its next link. */
  function Doubled(urls: seq<Url>): seq<Url> {
    if |urls| == 0 then [] else Doubled(urls[..|urls| - 1]) + [urls[|urls| - 1], urls[|urls| - 1]]
  }

  /** What one pass of the crawl loop decides: go on to the next page's URL, or stop. */
  datatype Step = Continue(next: Url) | Halt(reason: Stop)

  /** The outcome of one pass: the page's products, the decision, and the session after it. */
  datatype Turn = Turn(found: seq<Product>, step: Step, log: Log)

  /** One pass of the crawl loop on `url`: scrape the page; if it gave products,
      fetch the page again and look for its "next" link. The page's products are
      returned whatever happens next; an empty page halts without the second fetch. */
  function CrawlStep(env: Env, scr: Scraper, log: Log, url: Url, fetchDetailed: bool): (s: Turn)
    ensures s.found == ScrapePage(env, scr, log, url, fetchDetailed).0
    ensures s.found == [] <==> s.step == Halt(EmptyPage)
    ensures !fetchDetailed ==>
              var once := Fetch(env, log, url, DefaultRetries).1;
              && (s.found == [] ==> s.log == once)
              && (s.found != [] ==> s.log == Fetch(env, once, url, DefaultRetries).1)
    ensures forall p :: p in s.found ==> Retained(p)
    ensures s.step.Halt? ==> s.step.reason in {EmptyPage, RefetchFailed, NoNextLink}
    ensures log.requests <= s.log.requests
  {
    var (found, log1) := ScrapePage(env, scr, log, url, fetchDetailed);
    if found == [] then Turn(found, Halt(EmptyPage), log1)
    else
      var (body, log2) := Fetch(env, log1, url, DefaultRetries);
      if !HasContent(body) then Turn(found, Halt(RefetchFailed), log2)
      else
        match FirstHref(env.parse(body.value), scr.tables.next)
        case None => Turn(found, Halt(NoNextLink), log2)
        case Some(h) => Turn(found, Continue(env.join(scr.base, h)), log2)
  }

  /** The session and the decision of a pass: an empty page halts after the page's
      own fetches; otherwise the page is fetched once more, and the pass halts when
      that gives no content or no "next" link with an href, and otherwise continues
      to that href resolved against the base URL. */
  lemma CrawlStepDecides(env: Env, scr: Scraper, log: Log, url: Url, fetchDetailed: bool)
    ensures var s := CrawlStep(env, scr, log, url, fetchDetailed);
            var page := ScrapePage(env, scr, log, url, fetchDetailed);
            page.0 == [] ==> s.log == page.1
    ensures var s := CrawlStep(env, scr, log, url, fetchDetailed);
            var page := ScrapePage(env, scr, log, url, fetchDetailed);
            var body := Fetch(env, page.1, url, DefaultRetries).0;
            page.0 != [] ==>
              && s.log == Fetch(env, page.1, url, DefaultRetries).1
              && (s.step == Halt(RefetchFailed) <==> !HasContent(body))
              && (HasContent(body) ==>
                    var next := FirstHref(env.parse(body.value), scr.tables.next);
                    && (s.step == Halt(NoNextLink) <==> next.None?)
                    && (next.Some? ==> s.step == Continue(env.join(scr.base, next.value))))
  {
  }

  /** What a crawl did: the non-empty per-page product lists, the URLs visited,
      why it stopped, and the session after it. */
  datatype Trail = Trail(pages: seq<seq<Product>>, visited: seq<Url>, stop: Stop, log: Log)

  /** A crawl from `url` with at most `pagesLeft` more pages, over a given pass
      function: the recursion the loop of `scrape_all_pages` unrolls. */
  function Crawl(pass: (Log, Url) -> Turn, log: Log, url: Url, pagesLeft: int): (r: Trail)
    ensures |r.pages| <= |r.visited|
    ensures |r.visited| > 0 ==> r.visited[0] == url
    decreases pagesLeft
  {
    if url == "" then Trail([], [], NoUrl, log)
    else if pagesLeft <= 0 then Trail([], [], PageLimit, log)
    else
      var s := pass(log, url);
      match s.step
      case Halt(reason) => Trail(if s.found == [] then [] else [s.found], [url], reason, s.log)
      case Continue(next) =>
        var rest := Crawl(pass, s.log, next, pagesLeft - 1);
        Trail([s.found] + rest.pages, [url] + rest.visited, rest.stop, rest.log)
  }

  /** The scraper's own pass function. */
  function ScraperPass(env: Env, scr: Scraper, fetchDetailed: bool): (Log, Url) -> Turn {
    (log: Log, url: Url) => CrawlStep(env, scr, log, url, fetchDetailed)
  }

  /** The session after fetching `urls` one after the other. */
  function Fetches(env: Env, log: Log, urls: seq<Url>): Log
    decreases |urls|
  {
    if |urls| == 0 then log
    else Fetch(env, Fetches(env, log, urls[..|urls| - 1]), urls[|urls| - 1], DefaultRetries).1
  }

  /** Appending a URL to a fetch sequence fetches it after the others. */
  lemma FetchesSnoc(env: Env, log: Log, urls: seq<Url>, url: Url)
    ensures Fetches(env, log, urls + [url]) == Fetch(env, Fetches(env, log, urls), url, DefaultRetries).1
  {
    assert (urls + [url])[..|urls|] == urls;
  }

  /** A pass that halts exactly on an empty page. */
  ghost predicate HaltsOnEmpty(pass: (Log, Url) -> Turn) {
    forall log: Log, url: Url :: pass(log, url).found == [] <==> pass(log, url).step == Halt(EmptyPage)
  }

  /** A pass whose products are all retained, which halts only for a page-level
      reason, and which only adds to the session. */
  ghost predicate WellBehaved(pass: (Log, Url) -> Turn) {
    && (forall log: Log, url: Url, p :: p in pass(log, url).found ==> Retained(p))
    && (forall log: Log, url: Url :: pass(log, url).step.Halt? ==>
          pass(log, url).step.reason in {EmptyPage, RefetchFailed, NoNextLink})
    && (forall log: Log, url: Url :: log.requests <= pass(log, url).log.requests)
  }

  /** A pass whose session effect is exactly its page-level fetches: one fetch of
      the URL for an empty page, two in a row otherwise. */
  ghost predicate FetchesOnly(env: Env, pass: (Log, Url) -> Turn) {
    forall log: Log, url: Url :: pass(log, url).log
      == if pass(log, url).found == [] then Fetch(env, log, url, DefaultRetries).1
         else Fetch(env, Fetch(env, log, url, DefaultRetries).1, url, DefaultRetries).1
  }

  /** The scraper's pass halts exactly on an empty page, keeps only retained
      products, halts only for a page-level reason, and only adds to the
      session; without detail fetching its session effect is exactly its
      page-level fetches. */
  lemma ScraperPassFacts(env: Env, scr: Scraper, fetchDetailed: bool)
    ensures HaltsOnEmpty(ScraperPass(env, scr, fetchDetailed))
    ensures WellBehaved(ScraperPass(env, scr, fetchDetailed))
    ensures !fetchDetailed ==> FetchesOnly(env, ScraperPass(env, scr, fetchDetailed))
  {
    var pass := ScraperPass(env, scr, fetchDetailed);
    forall log: Log, url: Url ensures pass(log, url) == CrawlStep(env, scr, log, url, fetchDetailed) {
    }
  }

  /** Flattening a list of pages with one page in front puts its products first. */
  lemma {:induction false} FlattenCons(page: seq<Product>, pages: seq<seq<Product>>)
    ensures Flatten([page] + pages) == page + Flatten(pages)
    decreases |pages|
  {
    if |pages| == 0 {
      assert [page] + pages == [page];
      assert Flatten([page]) == Flatten([]) + page;
    } else {
      var init := pages[..|pages| - 1];
      FlattenCons(page, init);
      assert ([page] + pages)[..|pages|] == [page] + init;
      assert ([page] + pages)[|pages|] == pages[|pages| - 1];
    }
  }

  /** A crawl visits at most `max(pagesLeft, 0)` pages, starting with `url`,
      and visits one exactly when `url` is non-empty and a page is allowed. It
      stops at the page limit only after using every allowed page, and it stops
      on an empty page exactly when the last visited page added no list. */
  lemma {:induction false} CrawlVisits(pass: (Log, Url) -> Turn, log: Log, url: Url, pagesLeft: int)
    requires HaltsOnEmpty(pass) && WellBehaved(pass)
    ensures var t := Crawl(pass, log, url, pagesLeft);
            && |t.visited| <= (if pagesLeft <= 0 then 0 else pagesLeft)
            && (|t.visited| > 0 <==> url != "" && pagesLeft >= 1)
            && (|t.visited| > 0 ==> t.visited[0] == url)
            && (t.stop == PageLimit ==> |t.visited| == (if pagesLeft <= 0 then 0 else pagesLeft))
            && (t.stop == EmptyPage <==> |t.pages| + 1 == |t.visited|)
            && (t.stop != EmptyPage ==> |t.pages| == |t.visited|)
    decreases pagesLeft
  {
    if url != "" && pagesLeft > 0 {
      var s := pass(log, url);
      if s.step.Continue? {
        CrawlVisits(pass, s.log, s.step.next, pagesLeft - 1);
      }
    }
  }

  /** Every page list in `pages` is non-empty. */
  ghost predicate NoEmptyPage(pages: seq<seq<Product>>) {
    forall i :: 0 <= i < |pages| ==> |pages[i]| > 0
  }

  /** Every page list a crawl keeps is non-empty, and every product in them
      passed the title filter. */
  lemma {:induction false} CrawlProducts(pass: (Log, Url) -> Turn, log: Log, url: Url, pagesLeft: int)
    requires HaltsOnEmpty(pass) && WellBehaved(pass)
    ensures NoEmptyPage(Crawl(pass, log, url, pagesLeft).pages)
    ensures forall p :: p in Flatten(Crawl(pass, log, url, pagesLeft).pages) ==> Retained(p)
    decreases pagesLeft
  {
    if url != "" && pagesLeft > 0 {
      var s := pass(log, url);
      if s.step.Continue? {
        CrawlProducts(pass, s.log, s.step.next, pagesLeft - 1);
        var rest := Crawl(pass, s.log, s.step.next, pagesLeft - 1);
        assert NoEmptyPage(rest.pages);
        var t := Crawl(pass, log, url, pagesLeft);
        assert t.pages == [s.found] + rest.pages;
        assert s.found != [] by {
          assert s.found == [] <==> s.step == Halt(EmptyPage);
        }
        forall i | 0 <= i < |t.pages| ensures |t.pages[i]| > 0 {
          if i == 0 {
            assert t.pages[0] == s.found;
          } else {
            assert t.pages[i] == rest.pages[i - 1];
          }
        }
        FlattenCons(s.found, rest.pages);
      } else if s.found != [] {
        FlattenCons(s.found, []);
      }
    }
  }

  /** A crawl only adds to the session. */
  lemma {:induction false} CrawlGrows(pass: (Log, Url) -> Turn, log: Log, url: Url, pagesLeft: int)
    requires WellBehaved(pass)
    ensures log.requests <= Crawl(pass, log, url, pagesLeft).log.requests
    decreases pagesLeft
  {
    if url != "" && pagesLeft > 0 {
      var s := pass(log, url);
      if s.step.Continue? {
        CrawlGrows(pass, s.log, s.step.next, pagesLeft - 1);
      }
    }
  }

  /** One more page list at the end adds its products at the end. */
  lemma FlattenSnoc(pages: seq<seq<Product>>, page: seq<Product>)
    ensures Flatten(pages + [page]) == Flatten(pages) + page
  {
    assert (pages + [page])[..|pages|] == pages;
  }

  /** One more visited URL at the end adds its two fetches at the end. */
  lemma DoubledSnoc(urls: seq<Url>, url: Url)
    ensures Doubled(urls + [url]) == Doubled(urls) + [url, url]
    ensures Doubled(urls) + [url] + [url] == Doubled(urls + [url])
  {
    assert (urls + [url])[..|urls|] == urls;
  }

  /** A pass that continues: the rest of the crawl is one page longer on the
      accumulated side and one pass shorter on the recursive side. */
  lemma CrawlAdvance(pass: (Log, Url) -> Turn, log: Log, url: Url, pagesLeft: int,
                     pages: seq<seq<Product>>, visited: seq<Url>)
    requires url != "" && pagesLeft > 0 && pass(log, url).step.Continue?
    ensures var s := pass(log, url);
            var t := Crawl(pass, log, url, pagesLeft);
            var u := Crawl(pass, s.log, s.step.next, pagesLeft - 1);
            Trail(pages + t.pages, visited + t.visited, t.stop, t.log)
              == Trail(pages + [s.found] + u.pages, visited + [url] + u.visited, u.stop, u.log)
  {
    var s := pass(log, url);
    var u := Crawl(pass, s.log, s.step.next, pagesLeft - 1);
    assert pages + ([s.found] + u.pages) == pages + [s.found] + u.pages;
    assert visited + ([url] + u.visited) == visited + [url] + u.visited;
  }

  /** A pass that halts ends the crawl there, keeping its list only when non-empty. */
  lemma CrawlHalts(pass: (Log, Url) -> Turn, log: Log, url: Url, pagesLeft: int,
                   pages: seq<seq<Product>>, visited: seq<Url>)
    requires url != "" && pagesLeft > 0 && pass(log, url).step.Halt?
    ensures var s := pass(log, url);
            var t := Crawl(pass, log, url, pagesLeft);
            Trail(pages + t.pages, visited + t.visited, t.stop, t.log)
              == Trail(if s.found == [] then pages else pages + [s.found], visited + [url], s.step.reason, s.log)
  {
    assert pages + [] == pages;
  }

  /** For a pass whose session effect is its page-level fetches, one pass
      extends the fetch sequence by its URL once or twice. */
  lemma FetchesStep(env: Env, pass: (Log, Url) -> Turn, log0: Log, fetched: seq<Url>, url: Url)
    requires FetchesOnly(env, pass)
    ensures var log := Fetches(env, log0, fetched);
            && (pass(log, url).found == [] ==> pass(log, url).log == Fetches(env, log0, fetched + [url]))
            && (pass(log, url).found != [] ==> pass(log, url).log == Fetches(env, log0, fetched + [url, url]))
  {
    FetchesSnoc(env, log0, fetched, url);
    FetchesSnoc(env, log0, fetched + [url], url);
    assert fetched + [url] + [url] == fetched + [url, url];
  }

  /** The crawl loop over any pass function (`while current_url and page_num <=
      max_pages`): it computes exactly `Crawl`, returns the in-order
      concatenation of the kept page lists, and, for a pass whose session
      effect is its page-level fetches, the session is those fetches in order:
      each visited URL twice, except a last empty page, fetched once. */
  method CrawlLoop(env: Env, pass: (Log, Url) -> Turn, log0: Log, startUrl: Url, maxPages: int, fetchesOnly: bool)
    returns (products: seq<Product>, pages: seq<seq<Product>>, visited: seq<Url>,
             fetched: seq<Url>, stop: Stop, log: Log)
    requires HaltsOnEmpty(pass)
    requires fetchesOnly ==> FetchesOnly(env, pass)
    ensures Trail(pages, visited, stop, log) == Crawl(pass, log0, startUrl, maxPages)
    ensures products == Flatten(pages)
    ensures fetchesOnly ==> log == Fetches(env, log0, fetched)
    ensures stop == EmptyPage ==> |visited| > 0 && fetched + [visited[|visited| - 1]] == Doubled(visited)
    ensures stop != EmptyPage ==> fetched == Doubled(visited)
  {
    products, pages, visited, fetched, log := [], [], [], [], log0;
    var current := startUrl;
    var left := maxPages;  // pages still allowed: `max_pages - page_num + 1`
    while current != "" && left > 0
      invariant products == Flatten(pages)
      invariant fetched == Doubled(visited)
      invariant fetchesOnly ==> log == Fetches(env, log0, fetched)
      invariant var t := Crawl(pass, log, current, left);
                Crawl(pass, log0, startUrl, maxPages) == Trail(pages + t.pages, visited + t.visited, t.stop, t.log)
      decreases left
    {
      var s := pass(log, current);
      assert s.found == [] <==> s.step == Halt(EmptyPage);
      if fetchesOnly {
        FetchesStep(env, pass, log0, fetched, current);
      }
      DoubledSnoc(visited, current);
      if s.step.Halt? {
        CrawlHalts(pass, log, current, left, pages, visited);
      } else {
        CrawlAdvance(pass, log, current, left, pages, visited);
      }
      log := s.log;
      visited := visited + [current];
      if s.found == [] {
        fetched := fetched + [current];
        stop := EmptyPage;
        return;
      }
      fetched := fetched + [current, current];
      FlattenSnoc(pages, s.found);
      pages := pages + [s.found];
      products := products + s.found;
      if s.step.Halt? {
        stop := s.step.reason;
        return;
      }
      current := s.step.next;
      left := left - 1;
    }
    stop := if current == "" then NoUrl else PageLimit;
    assert pages + [] == pages && visited + [] == visited;
  }

  /** `scrape_all_pages(start_url, max_pages, fetch_detailed)`. Returns the
      products and, as a trace, the non-empty per-page lists, the visited URLs,
      the URLs of the page-level fetches in order, and the reason the crawl
      stopped. It computes exactly `Crawl` over the scraper's own pass: each
      page's products are those `scrape_page` gives for it, and each next URL is
      the "next" link of that page's second fetch. At most `max(max_pages, 0)`
      pages are scraped; the result is the in-order concatenation of the
      per-page lists. Without detail fetching the session is exactly the
      page-level fetches: each visited page twice in a row (scrape, then next
      link), except an empty page, fetched once, which ends the crawl. */
  method ScrapeAllPages(env: Env, scr: Scraper, log0: Log, startUrl: Url, maxPages: int, fetchDetailed: bool)
    returns (products: seq<Product>, pages: seq<seq<Product>>, visited: seq<Url>,
             fetched: seq<Url>, stop: Stop, log: Log)
    ensures Trail(pages, visited, stop, log) == Crawl(ScraperPass(env, scr, fetchDetailed), log0, startUrl, maxPages)
    ensures products == Flatten(pages)
    ensures !fetchDetailed ==> log == Fetches(env, log0, fetched)
    ensures |visited| <= (if maxPages <= 0 then 0 else maxPages)
    ensures |visited| > 0 <==> startUrl != "" && maxPages >= 1
    ensures |visited| > 0 ==> visited[0] == startUrl
    ensures forall i :: 0 <= i < |pages| ==> |pages[i]| > 0
    ensures forall p :: p in products ==> Retained(p)
    ensures stop == EmptyPage <==> |pages| + 1 == |visited|
    ensures stop != EmptyPage ==> fetched == Doubled(visited)
    ensures stop == EmptyPage ==> fetched + [visited[|visited| - 1]] == Doubled(visited)
    ensures stop == PageLimit ==> |visited| == (if maxPages <= 0 then 0 else maxPages)
    ensures log0.requests <= log.requests
  {
    var pass := ScraperPass(env, scr, fetchDetailed);
    ScraperPassFacts(env, scr, fetchDetailed);
    CrawlVisits(pass, log0, startUrl, maxPages);
    CrawlProducts(pass, log0, startUrl, maxPages);
    CrawlGrows(pass, log0, startUrl, maxPages);
    products, pages, visited, fetched, stop, log := CrawlLoop(env, pass, log0, startUrl, maxPages, !fetchDetailed);
  }
}
