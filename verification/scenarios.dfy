/** Concrete situations the scraper is designed for, checked against the model. */
module Scenarios {
  import opened Options
  import opened Dom
  import opened Fields
  import opened Fetcher
  import opened Config
  import opened Detail
  import opened Products

  function Leaf(text: string): Node {
    Node(text, map[], map[])
  }

  /** A card whose first title selector matches an element with empty text and
      whose second would match "Widget": the title is "", not "Widget". */
  lemma EmptyFirstMatchWins()
    ensures TextOrNA(Node("", map[], map[".a" := [Leaf("")], ".b" := [Leaf("Widget")]]), [".a", ".b"]) == ""
  {
    var n := Node("", map[], map[".a" := [Leaf("")], ".b" := [Leaf("Widget")]]);
    assert Cascade.FirstWith(n, [".a", ".b"], AnyElement, 0);
  }

  /** A breadcrumb Home > Electronics > Phones gives the category "Phones". */
  lemma BreadcrumbGivesLastCrumb()
    ensures DetailCategory(Node("", map[], map[".crumbs a" := [Leaf("Home"), Leaf("Electronics"), Leaf("Phones")]]),
                           [".crumbs a"]) == Some("Phones")
  {
    var doc := Node("", map[], map[".crumbs a" := [Leaf("Home"), Leaf("Electronics"), Leaf("Phones")]]);
    assert Cascade.FirstListWith(doc, [".crumbs a"], LastIsCategory, 0);
  }

  /** A server whose first two answers of the session are failures. */
  function FlakyServer(u: Url, k: nat): Response {
    if k < 2 then Failed else Ok("<html/>")
  }

  function Append(a: string, b: string): string {
    a + b
  }

  /** A server that fails twice and then answers: three requests, backoffs of
      one and two seconds, then the delay once. */
  lemma FailTwiceThenSucceed(url: Url)
    ensures Fetch(Env(FlakyServer, Leaf, Append), Log([], []), url, DefaultRetries)
            == (Some("<html/>"), Log([url, url, url], [Backoff(1), Backoff(2), Delay]))
  {
    var env := Env(FlakyServer, Leaf, Append);
    assert FirstSuccess(env, url, 0, 0, DefaultRetries, 2);
    AttemptSchedule(env, Log([], []), url, 0, 0, DefaultRetries);
    assert Repeat(url, 3) == [url, url, url];
    assert Pow2(1) == 2;
    assert Backoffs(0, 2) == [Backoff(1), Backoff(2)];
    var r := Fetch(env, Log([], []), url, DefaultRetries);
    assert r.0 == Some("<html/>");
    assert r.1.requests == [url, url, url];
    assert r.1.sleeps == [Backoff(1), Backoff(2), Delay];
  }

  /** With detailed scraping, a product page on which no SKU selector finds a real
      SKU text leaves the listing SKU in place, whatever else the page supplies. */
  lemma DetailWithoutSkuKeepsListingSku(env: Env, t: Tables, log: Log, p: Product)
    requires NeedsDetails(p, true)
    requires var body := Fetch(env, log, p.link, DefaultRetries).0;
             HasContent(body) ==> Cascade.NoneWith(env.parse(body.value), t.detailSku, IsSkuText)
    ensures Enrich(env, t, log, p, true).0.sku == p.sku
  {
  }
}
