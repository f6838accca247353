# WooCommerce scraper core, modelled in Dafny

This project models the scraping core of `WooCommerceScraper` (`scraper.py`).
The scraper reads a shop's listing pages and turns each product card into a
`Product` record. A record has four mandatory fields, which hold the sentinel
`"N/A"` when not found: title, price, link and image URL. It also has four
optional fields: description, SKU, stock status and category. When detailed
scraping is on and a card with a link has no description, the product's own
page is fetched, and each of description, SKU, stock status and category found
there replaces the card's value, even one the card already has.

Each field is found by a *selector cascade*. This is an ordered list of CSS
selectors tried in turn, where the first match that the field's acceptance rule
takes decides the result. The model treats the HTML parser and CSS engine as an
oracle: a `Dom.Node` answers `select`/`select_one` for each selector, and
carries its stripped text and its attributes. The network is an oracle too.
`Env.net(url, k)` is the answer to the session's k-th request, and the session
trace `Fetcher.Log` records every request and every sleep. A fetch's effect on
the trace is its retry schedule (`Fetcher.AttemptSchedule`). A detail fetch is
one fetch of the product's link (`Products.Enrich`). A crawl is the recursive
`Pager.Crawl` over one pass per page (`Pager.CrawlStep`), and without detail
scraping its trace is exactly the page-level fetches (`Pager.ScrapeAllPages`).

Modules:
- `Options`: an option type.
- `Text`: ASCII `lower`/`title`, substring tests, `[:n]` and `rstrip('/')`.
- `Dom`: the node oracle.
- `Cascade`: the generic first-match cascade and its element and list forms.
- `Fields`: the listing-card fields.
- `Fetcher`: the retry/backoff loop.
- `Config`: the base URL and every selector table.
- `Detail`: the detail page.
- `Products`: a card's product and the detail merge.
- `Pager`: `scrape_page` and `scrape_all_pages`.
- `Stats`: `get_statistics`.
- `Scenarios`: concrete cases.

Notes on the code's behaviour, which the model follows as written:
- **Image attribute.** `img.get('src', img.get('data-src', ...))` takes the first attribute that is *present*, even when it is empty. It is not the first non-empty one (`Fields.ImageSource`).
- **Pagination re-fetch.** After every page that yields products, the page is fetched a second time to find its "next" link, even when `max_pages` is 1 (`Pager.CrawlStep`, `Pager.ScrapeAllPages`).
- **Detail stock status.**
  - The backorder words omit "đặt trước".
  - The first match with text stops the search even when that text is not recognised, and the status then stays unset.
  - There is no class-name fallback.
- **Listing category.** The listing category uses the first element of a match. Only the detail page uses the last breadcrumb.

## Model

| member | source | states |
|---|---|---|
| Text.StripTrailingSlashes | scraper.py:47 | the stored base URL is a prefix of the given one that does not end in '/', and everything cut off is '/' |
| Text.Lower | scraper.py:388 | `.lower()` keeps the length, maps every character by ASCII lower-casing, and leaves no upper-case letter |
| Text.TitleCase | scraper.py:398 | `.title()` keeps the length; the first character and every one that does not follow a letter is upper-cased, every one that follows a letter is lower-cased |
| Text.Truncate | scraper.py:341 | `text[:n]` is a prefix of the text of length min(len, n) |
| Config.NewScraper | scraper.py:46-47 | the scraper keeps the base URL without trailing slashes and the cascades that `Configure` gives |
| Config.Configure | scraper.py:118-121 | title, price, link, image and product-container cascades come from the configuration's `selectors` section when it names them, else the built-in lists; every other cascade is the fixed built-in list |
| Cascade.FirstSome | scraper.py:130-135 | a cascade gives nothing exactly when every selector misses; otherwise it gives the answer of the first selector that hits, and such a selector exists |
| Cascade.LaterSelectorsIgnored | scraper.py:131-134 | the loop breaks at the first hit: selectors after it never influence the result |
| Cascade.FirstElement | scraper.py:165-169 | the element chosen is the `select_one` match of the first selector whose match the field accepts; none exactly when no selector yields an acceptable match |
| Cascade.FirstElementIgnoresLater | scraper.py:165-169 | two cards that agree on the selectors up to the first acceptable one get the same element |
| Cascade.FirstList | scraper.py:450-455 | the match list chosen is that of the first selector whose list is accepted; none exactly when none is |
| Fields.TextOrNA | scraper.py:130-135 | title/price are the text of the first selector's match, even when empty; "N/A" when no selector matches |
| Fields.FirstHref | scraper.py:524-527 | the raw href of the first match that has a non-empty href; none exactly when no match has one |
| Fields.Link | scraper.py:165-170 | the link is the first non-empty href resolved against the base URL; "N/A" when no match has an href |
| Fields.ImageSource | scraper.py:189 | the value of the first PRESENT attribute among src, data-src, data-lazy-src; "" when none is present |
| Fields.Image | scraper.py:181-191 | the image URL comes from the first match; a non-empty value not starting with "http" is resolved against the base, any other kept; "N/A" only without a match |
| Fields.Description | scraper.py:336-342 | none exactly when no match has more than ten characters; otherwise the first such text cut to its first min(len, 500) characters, so 11..500 long |
| Fields.Sku | scraper.py:357-368 | the first match with a real SKU text (not a label, compared lower-cased) or a non-empty data-sku decides; its text is preferred to the attribute; the result is never empty |
| Fields.Classify | scraper.py:390-398 | in-stock words win over out-of-stock words, which win over backorder words; text naming none is returned title-cased |
| Fields.StockStatus | scraper.py:385-406 | the first match with text decides through the lower-cased classification; only when none has text does `.in-stock` then `.out-of-stock` decide; else none |
| Fields.Category | scraper.py:421-427 | the text of the first match that is not a category label (compared lower-cased); none exactly when there is none |
| Detail.DetailSku | scraper.py:264-270 | the text of the first match that is not a SKU label; no data-sku fallback on the detail page |
| Detail.DetailWordsAreListingWords | scraper.py:291 | every detail backorder word is a listing backorder word |
| Detail.ClassifyDetail | scraper.py:286-292 | a detail status, when set, equals the listing classification of the same text and is one of the three labels; it is unset exactly when no known word occurs |
| Detail.DetailStock | scraper.py:282-293 | the first match with text decides and stops the search; unrecognised text and no text leave the status unset |
| Detail.DetailStockAgreesWithListing | scraper.py:282-293 | whenever the detail rule reports a status, the listing rule on the same node and cascade reports the same one |
| Detail.DetailCategory | scraper.py:304-311 | the last element's text of the first selector whose match list ends in a non-navigation crumb; none exactly when no list does |
| Detail.ExtractDetails | scraper.py:233-311 | detail descriptions obey the 11..500 bound and a detail stock status is one of the three labels |
| Detail.FetchProductDetails | scraper.py:223-313 | exactly one page fetch; details exactly when the page has content and at least one field was found, and then they are the page's fields |
| Products.ListingProduct | scraper.py:114-197 | a card's product respects the description bound and has non-empty SKU and category when present |
| Products.Merge | scraper.py:202-206 | a detail value replaces a field exactly when the detail page supplied that key; every other field, mandatory ones included, is unchanged |
| Products.MergeNeverErases | scraper.py:202-206 | the merge never turns a present optional field into an absent one |
| Products.MergeIdempotent | scraper.py:202-206 | merging the same details twice equals merging once |
| Products.Enrich | scraper.py:199-206 | unless detailed scraping is on, the link is real and the description is blank, nothing is fetched and nothing changes; otherwise the session is exactly one fetch of the product's link, and the product is merged with the details extracted from that page when it has content and they are not empty, and is unchanged otherwise; title, price, link and image never change and the description bound is kept |
| Products.ExtractProduct | scraper.py:114-217 | a card gives its listing product, enriched exactly as `Enrich` says: the same title, price, link and image; without enrichment the listing product itself with the session unchanged; with it, one fetch of the link and the merge with that page's non-empty details |
| Fetcher.AttemptSchedule | scraper.py:96-112 | if attempt k is the first to succeed, k+1 requests go out, backoffs 2^0..2^(k-1) are slept, then the delay once; if all fail, max_retries requests and a backoff after all but the last, no delay |
| Fetcher.GetPageContent | scraper.py:94-112 | the loop returns the first successful body with the schedule above, or none after max_retries failures |
| Fetcher.SuccessOrAllFail | scraper.py:96-112 | a fetch either succeeds at some attempt or every attempt fails |
| Fetcher.FetchBounds | scraper.py:94-112 | a fetch sends between one and max_retries requests, all to the URL, and sleeps the delay exactly when it returns a body |
| Fetcher.BackoffsHaveNoDelay | scraper.py:108-109 | backoff sleeps are never the politeness delay |
| Fetcher.Attempt | scraper.py:96-112 | the retry loop from a given attempt only appends to the session, sends at most one request per remaining attempt, and after a success the last sleep is the delay |
| Fetcher.Fetch | scraper.py:94-112 | a fetch only appends to the session, sends at most max_retries requests, and a returned body is followed by the delay |
| Fetcher.AttemptSucceedsRequests | scraper.py:96-104 | if attempt k is the first to succeed, its body is returned after exactly one request per attempt up to k, all to the URL |
| Fetcher.AttemptSucceedsSleeps | scraper.py:103-109 | if attempt k is the first to succeed, the backoffs 2^0..2^(k-1) are slept, then the delay once |
| Fetcher.AttemptFailsRequests | scraper.py:96-112 | if every attempt fails, nothing is returned after one request per attempt, all to the URL |
| Fetcher.AttemptFailsSleeps | scraper.py:106-111 | if every attempt fails, a backoff follows every failure but the last, and the delay is never slept |
| Pager.FindContainers | scraper.py:450-458 | the containers are the match list of the first container selector that matches anything; none exactly when every selector matches nothing |
| Pager.Titled | scraper.py:468-469 | the filter never keeps more products than it is given |
| Pager.TitledMembers | scraper.py:468-469 | a product is kept exactly when it is listed and its title is not the sentinel |
| Pager.TitledAppend | scraper.py:468-469 | filtering a concatenation filters each part and concatenates them: kept products stay in container order |
| Pager.TitledSingle | scraper.py:468-469 | a single product is kept exactly when it has a title |
| Pager.ExtractAll | scraper.py:460-490 | at most one product per container, each kept product has a title and a bounded description, and the session only grows |
| Pager.Listings | scraper.py:461-467 | one listing product per container, in order |
| Pager.ExtractAllWithoutDetails | scraper.py:460-490 | without detailed scraping a page's extraction sends no request and yields exactly the titled listing products in container order |
| Pager.ExtractAllKeepsListingCore | scraper.py:460-469 | with or without detailed scraping, the kept products are, position by position, the titled listing products with the same title, price, link and image |
| Pager.ScrapePage | scraper.py:429-490 | the page is fetched first; no content or no containers gives no products with the session after that fetch; otherwise the products agree position by position on the mandatory fields with the titled listing products of the first container selector's matches, and equal them without detailed scraping, when the session is exactly that one fetch |
| Pager.CrawlStep | scraper.py:501-536 | a pass's products are those of `scrape_page`; it halts on an empty page, and only then, with `EmptyPage`; it halts only on an empty page, a failed re-fetch or a missing next link; without detailed scraping the session is one fetch of the page when it is empty and two otherwise |
| Pager.CrawlStepDecides | scraper.py:501-536 | an empty page stops after `scrape_page`'s own fetches; otherwise the page is fetched exactly once more, the crawl stops for a failed re-fetch exactly when it gives no content and for a missing next link exactly when no next selector's match has an href, and continues to that href resolved against the base URL |
| Pager.Crawl | scraper.py:495-536 | the recursion the loop unrolls: no URL or no pages left ends the crawl; otherwise one pass on the URL, which ends it on `Halt` and recurses on `Continue(next)` with one page fewer; never more kept page lists than visited URLs, and the first visited URL is the start URL |
| Pager.ScraperPassFacts | scraper.py:501-536 | the scraper's own pass halts exactly on an empty page, keeps only titled products, halts only for page-level reasons, only adds to the session, and without detailed scraping its session is one or two fetches of the page |
| Pager.CrawlVisits | scraper.py:495-498 | a crawl visits at most max(max_pages, 0) pages, the first being start_url, and none exactly when start_url is empty or max_pages < 1; it stops at the page limit only after using every allowed page and on an empty page exactly when the last visited page gave no list |
| Pager.CrawlProducts | scraper.py:498-506 | every page list a crawl keeps is non-empty, and every product in them has a title and a bounded description |
| Pager.CrawlGrows | scraper.py:492-540 | a crawl only appends to the session |
| Pager.CrawlLoop | scraper.py:492-540 | for any pass that halts exactly on an empty page, the loop computes exactly the recursive crawl; the products are the in-order concatenation of the page lists; for a pass whose effect is its page fetches, the session is exactly those fetches, each visited URL twice, a final empty page once |
| Pager.ScrapeAllPages | scraper.py:492-540 | computes exactly the recursive crawl over the scraper's own pass, so each page's products are `scrape_page`'s and each next URL is the href found on the page's second fetch; at most max(max_pages, 0) pages, the first being start_url; the result is the in-order concatenation of the non-empty page lists; without detailed scraping the session is exactly each visited page fetched twice in a row, except a final empty page fetched once |
| Stats.CountPriced | scraper.py:593 | the priced count never exceeds the number of products |
| Stats.CountImaged | scraper.py:594 | the imaged count never exceeds the number of products |
| Stats.PricedAdd | scraper.py:593 | the priced count of a concatenation is the sum of the counts |
| Stats.ImagedAdd | scraper.py:594 | the imaged count of a concatenation is the sum of the counts |
| Stats.PricedExtremes | scraper.py:593 | full price coverage exactly when every product has a price; zero exactly when none has |
| Stats.ImagedExtremes | scraper.py:594 | full image coverage exactly when every product has an image; zero exactly when none has |
| Stats.GetStatistics | scraper.py:587-599 | nothing for no products; otherwise the total and the numbers of products whose price and whose image are not "N/A", each at most the total, full exactly when every product qualifies and zero exactly when none does |
| Scenarios.EmptyFirstMatchWins | scraper.py:130-135 | a title element with empty text still wins over a later selector's match |
| Scenarios.BreadcrumbGivesLastCrumb | scraper.py:304-311 | a breadcrumb Home > Electronics > Phones gives "Phones" as the detail category |
| Scenarios.FailTwiceThenSucceed | scraper.py:96-112 | two failures then a success give three requests, backoffs of 1 and 2 seconds, then the delay |
| Scenarios.DetailWithoutSkuKeepsListingSku | scraper.py:199-206 | when the fetched detail page has no SKU match that is a real SKU, enrichment leaves the listing SKU in place |

## Left out

- HTTP transport, session headers, timeouts and the proxy setup (scraper.py:50-71, 84-92): replaced by the `Env.net` oracle, which answers each request with a body or a failure.
- Reading `config.json` (scraper.py:73-82): the model takes the `selectors` section as a map. A missing or malformed file is the empty map.
- `time.sleep`: sleeps are recorded in the session trace, not taken. The politeness delay is recorded as a `Delay` token; its length is not modelled.
- The parser, CSS selector matching and `urljoin`: uninterpreted, given as the `Dom.Node` oracle and `Env.parse`/`Env.join`. `get_text(strip=True)` is the node's text.
- Python `str.lower()` and `str.title()`: modelled for ASCII letters only. Other characters are left unchanged, and a non-ASCII letter does not count as a letter for word starts. So `"còn hàng".title()` gives "CòN HàNg" in the model, not Python's "Còn Hàng", and that string becomes a stock status. Likewise "CÓ SẴN" is not lowered to "có sẵn", so it is not recognised as in stock.
- Exception paths (scraper.py:219-221, 315-317, 485-487): the model has no exceptions. A parse or attribute error that would drop a product or a detail dict is not represented.
- Logging, the summary counts logged after a crawl (scraper.py:544-553), `export_to_json`, `export_to_csv`, `print_products`, `main`, `simple_scrape` and the GUI: output only.
- Stats.GetStatistics: the formatted percentages `price_coverage` and `image_coverage` (scraper.py:600-601) are floating-point strings and are not modelled. Only the counts they are computed from are.
- `self.products` as mutable state: `Pager.ScrapeAllPages` returns the product list, and `Stats.GetStatistics` takes it as an argument.
- Pager.ScrapeAllPages: with detailed scraping on, the session is stated only through `Pager.Crawl`, not as a flat list of URLs, because each page's detail fetches sit between its two page fetches.
- Pager.ScrapePage: with detailed scraping on, the page's products are tied to the listing products only on title, price, link and image; their optional fields are stated per product by `Products.ExtractProduct`.
- Pager.Titled: its own contract bounds only the length; which products are kept and in what order is stated by `Pager.TitledMembers`, `Pager.TitledAppend` and `Pager.TitledSingle`.
- Pager.ExtractAll: its own contract gives only bounds; which products are kept, in what order and with which mandatory fields is stated by `Pager.ExtractAllKeepsListingCore` and, without detailed scraping, exactly by `Pager.ExtractAllWithoutDetails`.
