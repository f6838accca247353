/** `get_statistics`: coverage counts over the products of the last crawl.
    The percentages the source formats from these counts are not modelled. */
module Stats {
  import opened Options
  import opened Fields
  import opened Products

  datatype Statistics = Statistics(total: nat, withPrice: nat, withImage: nat)

  predicate HasPrice(p: Product) { p.price != NA }

  predicate HasImage(p: Product) { p.imageUrl != NA }

  /** How many products have a price that is not the sentinel. */
  function CountPriced(ps: seq<Product>): (n: nat)
    ensures n <= |ps|
  {
    if |ps| == 0 then 0
    else (if HasPrice(ps[0]) then 1 else 0) + CountPriced(ps[1..])
  }

  /** How many products have an image URL that is not the sentinel. */
  function CountImaged(ps: seq<Product>): (n: nat)
    ensures n <= |ps|
  {
    if |ps| == 0 then 0
    else (if HasImage(ps[0]) then 1 else 0) + CountImaged(ps[1..])
  }

  /** The price count of a concatenation is the sum of the counts, so the
      statistics of a crawl are the sums over its pages. */
  lemma {:induction false} PricedAdd(a: seq<Product>, b: seq<Product>)
    ensures CountPriced(a + b) == CountPriced(a) + CountPriced(b)
  {
    if |a| == 0 {
      assert a + b == b;
    } else {
      PricedAdd(a[1..], b);
      assert (a + b)[0] == a[0] && (a + b)[1..] == a[1..] + b;
    }
  }

  /** Likewise for the image count. */
  lemma {:induction false} ImagedAdd(a: seq<Product>, b: seq<Product>)
    ensures CountImaged(a + b) == CountImaged(a) + CountImaged(b)
  {
    if |a| == 0 {
      assert a + b == b;
    } else {
      ImagedAdd(a[1..], b);
      assert (a + b)[0] == a[0] && (a + b)[1..] == a[1..] + b;
    }
  }

  /** Full price coverage means every product has a price, and no coverage
      means none has. */
  lemma {:induction false} PricedExtremes(ps: seq<Product>)
    ensures CountPriced(ps) == |ps| <==> forall p :: p in ps ==> HasPrice(p)
    ensures CountPriced(ps) == 0 <==> forall p :: p in ps ==> !HasPrice(p)
  {
    if |ps| > 0 {
      PricedExtremes(ps[1..]);
      assert forall p :: p in ps <==> p == ps[0] || p in ps[1..];
    }
  }

  /** Full image coverage means every product has an image, and no coverage
      means none has. */
  lemma {:induction false} ImagedExtremes(ps: seq<Product>)
    ensures CountImaged(ps) == |ps| <==> forall p :: p in ps ==> HasImage(p)
    ensures CountImaged(ps) == 0 <==> forall p :: p in ps ==> !HasImage(p)
  {
    if |ps| > 0 {
      ImagedExtremes(ps[1..]);
      assert forall p :: p in ps <==> p == ps[0] || p in ps[1..];
    }
  }

  /** `get_statistics()`: nothing for an empty product list; otherwise the total
      and how many products have a price and an image, each at most the total,
      full exactly when every product qualifies and zero exactly when none does. */
  function GetStatistics(ps: seq<Product>): (r: Option<Statistics>)
    ensures r.None? <==> ps == []
    ensures r.Some? ==> r.value.total == |ps|
    ensures r.Some? ==> r.value.withPrice <= r.value.total && r.value.withImage <= r.value.total
    ensures r.Some? ==> (r.value.withPrice == r.value.total <==> forall p :: p in ps ==> HasPrice(p))
    ensures r.Some? ==> (r.value.withImage == r.value.total <==> forall p :: p in ps ==> HasImage(p))
    ensures r.Some? ==> (r.value.withPrice == 0 <==> forall p :: p in ps ==> !HasPrice(p))
    ensures r.Some? ==> (r.value.withImage == 0 <==> forall p :: p in ps ==> !HasImage(p))
    ensures r.Some? ==> r.value.withPrice == CountPriced(ps) && r.value.withImage == CountImaged(ps)
  {
    PricedExtremes(ps);
    ImagedExtremes(ps);
    if ps == [] then None
    else Some(Statistics(|ps|, CountPriced(ps), CountImaged(ps)))
  }
}
