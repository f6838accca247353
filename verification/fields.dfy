/** Listing-scope field resolution: how one product card yields its title,
    price, link, image, description, SKU, stock status and category. Each field
    is a selector cascade plus the rule for accepting and normalising a match. */
module Fields {
  import opened Options
  import opened Text
  import opened Dom
  import opened Cascade

  /** The sentinel the scraper stores when a mandatory field is not found. */
  const NA := "N/A"

  /** First-match rule: any element is acceptable, whatever its text. */
  predicate AnyElement(e: Node) { true }

  /** Title and price: the text of the first selector's match, even when that
      text is empty; the sentinel only when no selector matches at all. */
  function TextOrNA(n: Node, sels: seq<Selector>): (r: string)
    ensures NoneWith(n, sels, AnyElement) ==> r == NA
    ensures forall i :: FirstWith(n, sels, AnyElement, i) ==> r == SelectOne(n, sels[i]).value.text
  {
    match FirstElement(n, sels, AnyElement)
    case Some(e) => e.text
    case None => NA
  }

  /** `elem.get('href')`, with a missing attribute read as empty. */
  function Href(e: Node): string {
    match Attr(e, "href")
    case Some(v) => v
    case None => ""
  }

  predicate HasHref(e: Node) { Href(e) != "" }

  /** The raw `href` of the first matched element that has a non-empty one,
      skipping matches without it (product links and "next page" links). */
  function FirstHref(n: Node, sels: seq<Selector>): (r: Option<string>)
    ensures r.None? <==> NoneWith(n, sels, HasHref)
    ensures forall i :: FirstWith(n, sels, HasHref, i) ==> r == Some(Href(SelectOne(n, sels[i]).value))
    ensures r.Some? ==> r.value != ""
  {
    match FirstElement(n, sels, HasHref)
    case Some(e) => Some(Href(e))
    case None => None
  }

  /** Product link: the first non-empty `href`, resolved against the base URL;
      the sentinel exactly when no selector yields an element with an `href`. */
  function Link(n: Node, sels: seq<Selector>, base: string, join: (string, string) -> string): (r: string)
    ensures NoneWith(n, sels, HasHref) ==> r == NA
    ensures forall i :: FirstWith(n, sels, HasHref, i) ==> r == join(base, Href(SelectOne(n, sels[i]).value))
  {
    match FirstHref(n, sels)
    case Some(h) => join(base, h)
    case None => NA
  }

  /** The image attributes, in the order the scraper consults them. */
  const ImageAttrs: seq<string> := ["src", "data-src", "data-lazy-src"]

  /** `img.get('src', img.get('data-src', img.get('data-lazy-src', '')))`: the value
      of the first of the three attributes that is PRESENT (even if empty), else "". */
  function ImageSource(e: Node): (u: string)
    ensures forall k :: 0 <= k < |ImageAttrs| && ImageAttrs[k] in e.attrs
                        && (forall j :: 0 <= j < k ==> ImageAttrs[j] !in e.attrs)
                        ==> u == e.attrs[ImageAttrs[k]]
    ensures (forall k :: 0 <= k < |ImageAttrs| ==> ImageAttrs[k] !in e.attrs) ==> u == ""
  {
    assert |ImageAttrs| == 3;
    if ImageAttrs[0] in e.attrs then e.attrs[ImageAttrs[0]]
    else if ImageAttrs[1] in e.attrs then e.attrs[ImageAttrs[1]]
    else if ImageAttrs[2] in e.attrs then e.attrs[ImageAttrs[2]]
    else ""
  }

  /** Image URL: taken from the first matching element; a non-empty value that
      does not start with "http" is resolved against the base URL, any other is
      kept as is; the sentinel only when no selector matches. */
  function Image(n: Node, sels: seq<Selector>, base: string, join: (string, string) -> string): (r: string)
    ensures NoneWith(n, sels, AnyElement) ==> r == NA
    ensures forall i :: FirstWith(n, sels, AnyElement, i) ==>
              var u := ImageSource(SelectOne(n, sels[i]).value);
              if u != "" && !StartsWith(u, "http") then r == join(base, u) else r == u
  {
    match FirstElement(n, sels, AnyElement)
    case Some(e) =>
      var u := ImageSource(e);
      if u != "" && !StartsWith(u, "http") then join(base, u) else u
    case None => NA
  }

  /** Longest description kept. */
  const MaxDescription := 500

  /** A description candidate must be longer than ten characters. */
  predicate IsLongText(e: Node) { |e.text| > 10 }

  /** Description: the 500-character prefix of the first match whose text is
      longer than ten characters; shorter matches fall through to the next
      selector. Used for the listing card and for the detail page alike. */
  function Description(n: Node, sels: seq<Selector>): (r: Option<string>)
    ensures r.None? <==> NoneWith(n, sels, IsLongText)
    ensures forall i :: FirstWith(n, sels, IsLongText, i) ==>
              var t := SelectOne(n, sels[i]).value.text;
              r.Some? && r.value <= t && |r.value| == Min(|t|, MaxDescription)
    ensures r.Some? ==> 10 < |r.value| <= MaxDescription
  {
    match FirstElement(n, sels, IsLongText)
    case Some(e) => Some(Truncate(e.text, MaxDescription))
    case None => None
  }

  /** Texts that label a SKU field rather than give one, compared lower-cased. */
  const SkuPlaceholders: seq<string> := ["sku", "sku:", "n/a", ""]

  predicate IsSkuText(e: Node) { e.text != "" && Lower(e.text) !in SkuPlaceholders }

  predicate HasSkuValue(e: Node) { IsSkuText(e) || HasAttr(e, "data-sku") }

  /** Listing SKU: the first match that has either a real SKU text or a non-empty
      `data-sku` attribute; its text is preferred to the attribute. */
  function Sku(n: Node, sels: seq<Selector>): (r: Option<string>)
    ensures r.None? <==> NoneWith(n, sels, HasSkuValue)
    ensures forall i :: FirstWith(n, sels, HasSkuValue, i) ==>
              var e := SelectOne(n, sels[i]).value;
              r == Some(if IsSkuText(e) then e.text else e.attrs["data-sku"])
    ensures r.Some? ==> r.value != ""
  {
    match FirstElement(n, sels, HasSkuValue)
    case Some(e) => Some(if IsSkuText(e) then e.text else e.attrs["data-sku"])
    case None => None
  }

  const InStock := "In Stock"
  const OutOfStock := "Out of Stock"
  const OnBackorder := "On Backorder"

  const InStockWords: seq<string> := ["in stock", "available", "có sẵn"]
  const OutOfStockWords: seq<string> := ["out of stock", "sold out", "hết hàng"]
  const BackorderWords: seq<string> := ["backorder", "pre-order", "đặt trước"]

  /** Listing stock normalisation of a lower-cased text: in stock before out of
      stock before backorder; text naming none of them is kept, title-cased. */
  function Classify(t: string): (r: string)
    ensures ContainsAny(t, InStockWords) ==> r == InStock
    ensures !ContainsAny(t, InStockWords) && ContainsAny(t, OutOfStockWords) ==> r == OutOfStock
    ensures (!ContainsAny(t, InStockWords) && !ContainsAny(t, OutOfStockWords)
             && ContainsAny(t, BackorderWords)) ==> r == OnBackorder
    ensures (!ContainsAny(t, InStockWords) && !ContainsAny(t, OutOfStockWords)
             && !ContainsAny(t, BackorderWords)) ==> r == TitleCase(t)
  {
    if ContainsAny(t, InStockWords) then InStock
    else if ContainsAny(t, OutOfStockWords) then OutOfStock
    else if ContainsAny(t, BackorderWords) then OnBackorder
    else TitleCase(t)
  }

  /** A stock candidate must have non-empty lower-cased text. */
  predicate HasStockText(e: Node) { Lower(e.text) != "" }

  /** Listing stock status: the first match with text decides, through
      `Classify`; only when no selector produced text does the card's
      `.in-stock` / `.out-of-stock` class decide; otherwise unknown. */
  function StockStatus(n: Node, sels: seq<Selector>): (r: Option<string>)
    ensures forall i :: FirstWith(n, sels, HasStockText, i) ==>
              r == Some(Classify(Lower(SelectOne(n, sels[i]).value.text)))
    ensures NoneWith(n, sels, HasStockText) ==>
              r == (if SelectOne(n, ".in-stock").Some? then Some(InStock)
                    else if SelectOne(n, ".out-of-stock").Some? then Some(OutOfStock)
                    else None)
  {
    match FirstElement(n, sels, HasStockText)
    case Some(e) => Some(Classify(Lower(e.text)))
    case None =>
      if SelectOne(n, ".in-stock").Some? then Some(InStock)
      else if SelectOne(n, ".out-of-stock").Some? then Some(OutOfStock)
      else None
  }

  /** Texts that name the category field rather than a category, lower-cased. */
  const CategoryLabels: seq<string> := ["category", "categories", "cat", ""]

  predicate IsCategoryText(e: Node) { e.text != "" && Lower(e.text) !in CategoryLabels }

  /** Listing category: the text of the first match (its first element) that is
      not a field label. */
  function Category(n: Node, sels: seq<Selector>): (r: Option<string>)
    ensures r.None? <==> NoneWith(n, sels, IsCategoryText)
    ensures forall i :: FirstWith(n, sels, IsCategoryText, i) ==> r == Some(SelectOne(n, sels[i]).value.text)
    ensures r.Some? ==> r.value != "" && Lower(r.value) !in CategoryLabels
  {
    match FirstElement(n, sels, IsCategoryText)
    case Some(e) => Some(e.text)
    case None => None
  }
}
