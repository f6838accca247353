/** Product records and their extraction from one listing card
    (`_extract_product_details`), including the guarded detail-page merge. */
module Products {
  import opened Options
  import opened Dom
  import opened Fields
  import opened Fetcher
  import opened Config
  import opened Detail

  /** One scraped product. The four mandatory fields hold the sentinel `NA`
      when not found; the four optional ones are `None`. */
  datatype Product = Product(title: string, price: string, link: string, imageUrl: string,
                             description: Option<string>, sku: Option<string>,
                             stockStatus: Option<string>, category: Option<string>)

  /** The scraper keeps a product only when its title is not the sentinel. */
  predicate HasTitle(p: Product) {
    p.title != NA
  }

  /** A description is absent or 11..500 characters long. */
  predicate DescriptionBound(d: Option<string>) {
    d.None? || 10 < |d.value| <= MaxDescription
  }

  /** Two products agree on the four mandatory fields, which only the listing card sets. */
  predicate SameCore(a: Product, b: Product) {
    a.title == b.title && a.price == b.price && a.link == b.link && a.imageUrl == b.imageUrl
  }

  /** Python falsiness of an optional string: `None` or "". */
  predicate Blank(s: Option<string>) {
    s.None? || s.value == ""
  }

  /** Every field resolved against the listing card alone. */
  function ListingProduct(scr: Scraper, e: Node, join: (string, string) -> string): (p: Product)
    ensures DescriptionBound(p.description)
    ensures p.sku.Some? ==> p.sku.value != ""
    ensures p.category.Some? ==> p.category.value != ""
  {
    Product(
      TextOrNA(e, scr.tables.title),
      TextOrNA(e, scr.tables.price),
      Link(e, scr.tables.link, scr.base, join),
      Image(e, scr.tables.image, scr.base, join),
      Description(e, scr.tables.description),
      Sku(e, scr.tables.sku),
      StockStatus(e, scr.tables.stock),
      Category(e, scr.tables.category))
  }

  /** `details.get(key, current)` on one field. */
  function Override(found: Option<string>, current: Option<string>): Option<string> {
    match found
    case Some(_) => found
    case None => current
  }

  /** The detail merge: a field whose key the detail page supplied takes the
      detail value, every other field (the four mandatory ones included) is
      left exactly as it was. */
  function Merge(p: Product, d: Details): (r: Product)
    ensures r.title == p.title && r.price == p.price && r.link == p.link && r.imageUrl == p.imageUrl
    ensures d.description.Some? ==> r.description == d.description
    ensures d.description.None? ==> r.description == p.description
    ensures d.sku.Some? ==> r.sku == d.sku
    ensures d.sku.None? ==> r.sku == p.sku
    ensures d.stockStatus.Some? ==> r.stockStatus == d.stockStatus
    ensures d.stockStatus.None? ==> r.stockStatus == p.stockStatus
    ensures d.category.Some? ==> r.category == d.category
    ensures d.category.None? ==> r.category == p.category
  {
    p.(description := Override(d.description, p.description),
       sku := Override(d.sku, p.sku),
       stockStatus := Override(d.stockStatus, p.stockStatus),
       category := Override(d.category, p.category))
  }

  /** A field present before the merge is present after it: absence on the
      detail page never erases a listing value. */
  lemma MergeNeverErases(p: Product, d: Details)
    ensures p.description.Some? ==> Merge(p, d).description.Some?
    ensures p.sku.Some? ==> Merge(p, d).sku.Some?
    ensures p.stockStatus.Some? ==> Merge(p, d).stockStatus.Some?
    ensures p.category.Some? ==> Merge(p, d).category.Some?
  {
  }

  /** Merging the same details twice is merging them once. */
  lemma MergeIdempotent(p: Product, d: Details)
    ensures Merge(Merge(p, d), d) == Merge(p, d)
  {
  }

  /** Enrichment runs only with `fetch_detailed`, a real link and no description yet. */
  predicate NeedsDetails(p: Product, fetchDetailed: bool) {
    fetchDetailed && p.link != NA && Blank(p.description)
  }

  /** The enrichment step of `_extract_product_details`: when it runs, it costs
      exactly one `_fetch_product_details` of the product's link and merges what
      was found; otherwise the product and the session are untouched. The four
      mandatory fields never change, and the description bound is kept. */
  function Enrich(env: Env, t: Tables, log: Log, p: Product, fetchDetailed: bool): (r: (Product, Log))
    ensures !NeedsDetails(p, fetchDetailed) ==> r == (p, log)
    ensures NeedsDetails(p, fetchDetailed) ==>
              var body := Fetch(env, log, p.link, DefaultRetries).0;
              && r.1 == Fetch(env, log, p.link, DefaultRetries).1
              && (HasContent(body) && !ExtractDetails(env.parse(body.value), t).IsEmpty()
                  ==> r.0 == Merge(p, ExtractDetails(env.parse(body.value), t)))
              && (!HasContent(body) || ExtractDetails(env.parse(body.value), t).IsEmpty() ==> r.0 == p)
    ensures SameCore(r.0, p)
    ensures DescriptionBound(p.description) ==> DescriptionBound(r.0.description)
    ensures log.requests <= r.1.requests
  {
    if !NeedsDetails(p, fetchDetailed) then (p, log)
    else
      FetchBounds(env, log, p.link, DefaultRetries);
      var (found, log') := FetchProductDetails(env, t, log, p.link);
      match found
      case Some(d) => (Merge(p, d), log')
      case None => (p, log')
  }

  /** `_extract_product_details(element, fetch_detailed)`: the listing-scope
      product, enriched from its detail page when that is called for. */
  function ExtractProduct(env: Env, scr: Scraper, log: Log, e: Node, fetchDetailed: bool): (r: (Product, Log))
    ensures var q := ListingProduct(scr, e, env.join);
            && SameCore(r.0, q)
            && (!NeedsDetails(q, fetchDetailed) ==> r == (q, log))
    ensures var q := ListingProduct(scr, e, env.join);
            var body := Fetch(env, log, q.link, DefaultRetries).0;
            NeedsDetails(q, fetchDetailed) ==>
              && r.1 == Fetch(env, log, q.link, DefaultRetries).1
              && (HasContent(body) && !ExtractDetails(env.parse(body.value), scr.tables).IsEmpty()
                  ==> r.0 == Merge(q, ExtractDetails(env.parse(body.value), scr.tables)))
              && (!HasContent(body) || ExtractDetails(env.parse(body.value), scr.tables).IsEmpty() ==> r.0 == q)
    ensures DescriptionBound(r.0.description)
    ensures log.requests <= r.1.requests
  {
    Enrich(env, scr.tables, log, ListingProduct(scr, e, env.join), fetchDetailed)
  }
}
