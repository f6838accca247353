/** The scraper's configuration: its base URL and the selector tables. The
    title, price, link, image and product-container cascades may be replaced
    from a configuration document; every other cascade is fixed. */
module Config {
  import opened Dom
  import Text

  /** Every selector cascade the scraper uses. */
  datatype Tables = Tables(
    title: seq<Selector>, price: seq<Selector>, link: seq<Selector>, image: seq<Selector>,
    containers: seq<Selector>,
    description: seq<Selector>, sku: seq<Selector>, stock: seq<Selector>, category: seq<Selector>,
    detailDescription: seq<Selector>, detailSku: seq<Selector>, detailStock: seq<Selector>,
    detailCategory: seq<Selector>, next: seq<Selector>)

  /** A configured scraper: `base` is the site root used to resolve relative
      links, `tables` the cascades in force for the whole session. */
  datatype Scraper = Scraper(base: string, tables: Tables)

  /** `selectors.get(key, default)` */
  function CascadeFor(overrides: map<string, seq<Selector>>, key: string, default: seq<Selector>): seq<Selector> {
    if key in overrides then overrides[key] else default
  }

  /** The cascades in force given the `selectors` section of the configuration:
      the title, price, link, image and container cascades are taken from it
      when it names them; every other cascade is built in and cannot be changed. */
  function Configure(overrides: map<string, seq<Selector>>): (t: Tables)
    ensures "title" in overrides ==> t.title == overrides["title"]
    ensures "title" !in overrides ==> t.title == TitleSelectors
    ensures "price" in overrides ==> t.price == overrides["price"]
    ensures "price" !in overrides ==> t.price == PriceSelectors
    ensures "link" in overrides ==> t.link == overrides["link"]
    ensures "link" !in overrides ==> t.link == LinkSelectors
    ensures "image" in overrides ==> t.image == overrides["image"]
    ensures "image" !in overrides ==> t.image == ImageSelectors
    ensures "product_containers" in overrides ==> t.containers == overrides["product_containers"]
    ensures "product_containers" !in overrides ==> t.containers == ContainerSelectors
    ensures t.description == DescriptionSelectors && t.sku == SkuSelectors
    ensures t.stock == StockSelectors && t.category == CategorySelectors
    ensures t.detailDescription == DetailDescriptionSelectors && t.detailSku == DetailSkuSelectors
    ensures t.detailStock == DetailStockSelectors && t.detailCategory == DetailCategorySelectors
    ensures t.next == NextSelectors
  {
    Tables(
      CascadeFor(overrides, "title", TitleSelectors),
      CascadeFor(overrides, "price", PriceSelectors),
      CascadeFor(overrides, "link", LinkSelectors),
      CascadeFor(overrides, "image", ImageSelectors),
      CascadeFor(overrides, "product_containers", ContainerSelectors),
      DescriptionSelectors, SkuSelectors, StockSelectors, CategorySelectors,
      DetailDescriptionSelectors, DetailSkuSelectors, DetailStockSelectors, DetailCategorySelectors,
      NextSelectors)
  }

  /** `WooCommerceScraper(base_url)` with the given `selectors` configuration:
      the base URL is kept without its trailing slashes. */
  function NewScraper(baseUrl: string, overrides: map<string, seq<Selector>>): (s: Scraper)
    ensures s.base <= baseUrl
    ensures |s.base| == 0 || s.base[|s.base| - 1] != '/'
    ensures forall i :: |s.base| <= i < |baseUrl| ==> baseUrl[i] == '/'
    ensures s.tables == Configure(overrides)
  {
    Scraper(Text.StripTrailingSlashes(baseUrl), Configure(overrides))
  }

  const TitleSelectors: seq<Selector> := [
    "h2.woocommerce-loop-product__title", "h3.woocommerce-loop-product__title",
    ".product-title", ".wc-block-grid__product-title", ".product-item-title", "a"]

  const PriceSelectors: seq<Selector> := [
    "span.woocommerce-Price-amount", ".woocommerce-Price-amount bdi", ".price .amount",
    ".price bdi", ".price", ".wc-block-grid__product-price", ".product-price"]

  const LinkSelectors: seq<Selector> := [
    "a.woocommerce-LoopProduct-link", "a.wc-block-grid__product-link", ".product-item-link",
    "h2 a", "h3 a", "a"]

  const ImageSelectors: seq<Selector> := [
    "img.attachment-woocommerce_thumbnail", "img.wp-post-image",
    ".wc-block-grid__product-image img", ".product-image img", "img"]

  const DescriptionSelectors: seq<Selector> := [
    ".woocommerce-product-details__short-description", ".product-short-description",
    ".entry-summary p", ".product-excerpt", ".product-description", ".wc-product-description",
    "p.product-excerpt", ".summary .description", ".product-summary p",
    "[class*=\"description\"]", "p"]

  const SkuSelectors: seq<Selector> := [
    ".sku", ".product-sku", ".woocommerce-product-sku", "[class*=\"sku\"]",
    ".product-meta .sku", ".product-code", "[data-sku]"]

  const StockSelectors: seq<Selector> := [
    ".stock", ".availability", ".in-stock", ".out-of-stock", ".stock-status",
    ".woocommerce-stock-status", "[class*=\"stock\"]", ".product-stock", ".inventory-status"]

  const CategorySelectors: seq<Selector> := [
    ".product-category", ".category", ".woocommerce-product-category", ".product-cat",
    "[class*=\"category\"]", ".breadcrumb a", ".product-meta .category"]

  const DetailDescriptionSelectors: seq<Selector> := [
    ".woocommerce-product-details__short-description", ".product-short-description",
    ".entry-summary .woocommerce-product-details__short-description",
    ".summary .woocommerce-product-details__short-description", ".entry-content p",
    ".product-description", ".short-description", ".wc-tab-content p"]

  const DetailSkuSelectors: seq<Selector> := [
    ".sku", ".product_meta .sku", ".woocommerce-product-sku", ".product-sku", "[itemprop=\"sku\"]"]

  const DetailStockSelectors: seq<Selector> := [
    ".stock", ".availability p", ".woocommerce-stock-status", ".in-stock", ".out-of-stock",
    ".stock-status"]

  const DetailCategorySelectors: seq<Selector> := [
    ".woocommerce-breadcrumb a", ".breadcrumb a", ".product_meta .posted_in a",
    ".product-category a", ".entry-meta .category a"]

  const ContainerSelectors: seq<Selector> := [
    "li.product", ".wc-block-grid__product", ".product-item", ".woocommerce-product",
    ".type-product", "[class*=\"product\"]", ".product", ".products li"]

  const NextSelectors: seq<Selector> := [
    "a.next", ".next-page a", ".pagination .next", ".woocommerce-pagination .next",
    "a[aria-label=\"Next\"]", ".page-numbers.next"]
}
