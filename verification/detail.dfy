/** Detail-page enrichment (`_fetch_product_details`): the product's own page is
    fetched and four optional fields are resolved against the whole document
    with cascades of their own. Only the fields found make it into the result. */
module Detail {
  import opened Options
  import opened Text
  import opened Dom
  import opened Cascade
  import opened Fields
  import opened Fetcher
  import opened Config

  /** The `details` dict: a field is `Some` exactly when its key is present. */
  datatype Details = Details(description: Option<string>, sku: Option<string>,
                             stockStatus: Option<string>, category: Option<string>) {
    predicate IsEmpty() {
      description.None? && sku.None? && stockStatus.None? && category.None?
    }
  }

  /** Detail SKU: the text of the first match that is not a label; unlike the
      listing card, no `data-sku` attribute is consulted. */
  function DetailSku(doc: Node, sels: seq<Selector>): (r: Option<string>)
    ensures r.None? <==> NoneWith(doc, sels, IsSkuText)
    ensures forall i :: FirstWith(doc, sels, IsSkuText, i) ==> r == Some(SelectOne(doc, sels[i]).value.text)
    ensures r.Some? ==> r.value != "" && Lower(r.value) !in SkuPlaceholders
  {
    match FirstElement(doc, sels, IsSkuText)
    case Some(e) => Some(e.text)
    case None => None
  }

  /** The detail page's backorder words: the listing's without "đặt trước". */
  const DetailBackorderWords: seq<string> := ["backorder", "pre-order"]

  lemma DetailWordsAreListingWords(t: string)
    ensures ContainsAny(t, DetailBackorderWords) ==> ContainsAny(t, BackorderWords)
  {
    if ContainsAny(t, DetailBackorderWords) {
      var k :| 0 <= k < |DetailBackorderWords| && Contains(t, DetailBackorderWords[k]);
      assert BackorderWords[k] == DetailBackorderWords[k];
    }
  }

  /** Detail stock normalisation: only the three known statuses are ever
      reported, and whenever one is, it is the one the listing rule gives;
      text naming none of them leaves the status unset. */
  function ClassifyDetail(t: string): (r: Option<string>)
    ensures r.Some? ==> r.value == Classify(t)
    ensures r.None? <==> !ContainsAny(t, InStockWords) && !ContainsAny(t, OutOfStockWords)
                         && !ContainsAny(t, DetailBackorderWords)
    ensures r.Some? ==> r.value in {InStock, OutOfStock, OnBackorder}
  {
    DetailWordsAreListingWords(t);
    if ContainsAny(t, InStockWords) then Some(InStock)
    else if ContainsAny(t, OutOfStockWords) then Some(OutOfStock)
    else if ContainsAny(t, DetailBackorderWords) then Some(OnBackorder)
    else None
  }

  /** Detail stock status: the first match with text stops the search, even
      when its text is not recognised (the status then stays unset); there is
      no class-name fallback. */
  function DetailStock(doc: Node, sels: seq<Selector>): (r: Option<string>)
    ensures NoneWith(doc, sels, HasStockText) ==> r.None?
    ensures forall i :: FirstWith(doc, sels, HasStockText, i) ==>
              r == ClassifyDetail(Lower(SelectOne(doc, sels[i]).value.text))
  {
    match FirstElement(doc, sels, HasStockText)
    case Some(e) => ClassifyDetail(Lower(e.text))
    case None => None
  }

  /** On the same node and cascade, a status the detail rule reports is the one
      the listing rule reports. */
  lemma DetailStockAgreesWithListing(doc: Node, sels: seq<Selector>)
    ensures DetailStock(doc, sels).Some? ==> StockStatus(doc, sels) == DetailStock(doc, sels)
  {
    var e := FirstElement(doc, sels, HasStockText);
    if e.Some? {
      var i :| FirstWith(doc, sels, HasStockText, i) && e == SelectOne(doc, sels[i]);
    }
  }

  /** Breadcrumb texts that are not a category, lower-cased. */
  const DetailCategoryLabels: seq<string> := ["home", "shop", "trang chủ"]

  function Last(es: seq<Node>): Node
    requires |es| > 0
  {
    es[|es| - 1]
  }

  /** A match list whose LAST element (the category nearest the product in a
      breadcrumb) has text that is not a navigation label. */
  predicate LastIsCategory(es: seq<Node>) {
    |es| > 0 && Last(es).text != "" && Lower(Last(es).text) !in DetailCategoryLabels
  }

  /** Detail category: the last element's text of the first selector whose match
      list ends in a real category. */
  function DetailCategory(doc: Node, sels: seq<Selector>): (r: Option<string>)
    ensures r.None? <==> forall i :: 0 <= i < |sels| ==> !LastIsCategory(SelectAll(doc, sels[i]))
    ensures forall i :: FirstListWith(doc, sels, LastIsCategory, i) ==> r == Some(Last(SelectAll(doc, sels[i])).text)
    ensures r.Some? ==> r.value != "" && Lower(r.value) !in DetailCategoryLabels
  {
    match FirstList(doc, sels, LastIsCategory)
    case Some(es) => Some(Last(es).text)
    case None => None
  }

  /** Everything the detail page yields; the description obeys the same
      11..500-character bound as on the listing card. */
  function ExtractDetails(doc: Node, t: Tables): (d: Details)
    ensures d.description.None? || 10 < |d.description.value| <= MaxDescription
    ensures d.stockStatus.None? || d.stockStatus.value in {InStock, OutOfStock, OnBackorder}
  {
    Details(Description(doc, t.detailDescription),
            DetailSku(doc, t.detailSku),
            DetailStock(doc, t.detailStock),
            DetailCategory(doc, t.detailCategory))
  }

  /** `_fetch_product_details(url)`: one fetch of the product page; nothing when
      the page is unavailable or empty, nothing either when no field was found
      (an empty dict is returned as `None`). */
  function FetchProductDetails(env: Env, t: Tables, log: Log, url: Url): (r: (Option<Details>, Log))
    ensures r.1 == Fetch(env, log, url, DefaultRetries).1
    ensures var body := Fetch(env, log, url, DefaultRetries).0;
            r.0.Some? <==> HasContent(body) && !ExtractDetails(env.parse(body.value), t).IsEmpty()
    ensures r.0.Some? ==> r.0 == Some(ExtractDetails(env.parse(Fetch(env, log, url, DefaultRetries).0.value), t))
  {
    var (body, log') := Fetch(env, log, url, DefaultRetries);
    if !HasContent(body) then (None, log')
    else
      var d := ExtractDetails(env.parse(body.value), t);
      (if d.IsEmpty() then None else Some(d), log')
  }
}
