/** Selector cascades: an ordered list of selectors tried in turn, the first
    one whose probe yields something deciding the result. Every field of a
    product, the product containers of a page and its "next" link are found
    this way; the fields differ only in what a probe accepts. */
module Cascade {
  import opened Options
  import opened Dom

  /** `i` is the first selector whose probe yields a value. */
  ghost predicate FirstHit<T>(sels: seq<Selector>, probe: Selector -> Option<T>, i: int) {
    && 0 <= i < |sels|
    && probe(sels[i]).Some?
    && forall j :: 0 <= j < i ==> probe(sels[j]).None?
  }

  /** The first value any selector's probe yields, in cascade order. */
  function FirstSome<T>(sels: seq<Selector>, probe: Selector -> Option<T>): (r: Option<T>)
    ensures r.None? <==> forall i :: 0 <= i < |sels| ==> probe(sels[i]).None?
    ensures forall i :: FirstHit(sels, probe, i) ==> r == probe(sels[i])
    ensures r.Some? ==> exists i :: FirstHit(sels, probe, i)
  {
    if |sels| == 0 then None
    else if probe(sels[0]).Some? then
      assert FirstHit(sels, probe, 0);
      probe(sels[0])
    else
      var r := FirstSome(sels[1..], probe);
      assert forall i :: 1 <= i < |sels| ==> sels[1..][i - 1] == sels[i];
      assert forall i :: FirstHit(sels, probe, i) ==> FirstHit(sels[1..], probe, i - 1);
      assert forall i :: FirstHit(sels[1..], probe, i) ==> FirstHit(sels, probe, i + 1);
      r
  }

  /** The cascade never looks past its first hit: probes that agree up to and
      including that selector give the same result, whatever they do later. */
  lemma LaterSelectorsIgnored<T>(sels: seq<Selector>, probe: Selector -> Option<T>,
                                 other: Selector -> Option<T>, i: int)
    requires FirstHit(sels, probe, i)
    requires forall j :: 0 <= j <= i ==> other(sels[j]) == probe(sels[j])
    ensures FirstSome(sels, other) == FirstSome(sels, probe) == probe(sels[i])
  {
    assert FirstHit(sels, other, i);
  }

  /** `select_one(s)` matched an element that `accept` takes. */
  predicate Accepts(n: Node, s: Selector, accept: Node -> bool) {
    SelectOne(n, s).Some? && accept(SelectOne(n, s).value)
  }

  /** `i` is the first selector whose `select_one` yields an acceptable element. */
  ghost predicate FirstWith(n: Node, sels: seq<Selector>, accept: Node -> bool, i: int) {
    && 0 <= i < |sels|
    && Accepts(n, sels[i], accept)
    && forall j :: 0 <= j < i ==> !Accepts(n, sels[j], accept)
  }

  /** No selector's `select_one` yields an acceptable element. */
  ghost predicate NoneWith(n: Node, sels: seq<Selector>, accept: Node -> bool) {
    forall i :: 0 <= i < |sels| ==> !Accepts(n, sels[i], accept)
  }

  function Probe(n: Node, accept: Node -> bool): Selector -> Option<Node> {
    s => if Accepts(n, s, accept) then SelectOne(n, s) else None
  }

  /** The element chosen by a `for selector in ...: elem = select_one(selector);
      if <acceptable>: break` loop: the first acceptable one, or none. */
  function FirstElement(n: Node, sels: seq<Selector>, accept: Node -> bool): (r: Option<Node>)
    ensures r.None? <==> NoneWith(n, sels, accept)
    ensures forall i :: FirstWith(n, sels, accept, i) ==> r == SelectOne(n, sels[i])
    ensures r.Some? ==> accept(r.value) && exists i :: FirstWith(n, sels, accept, i) && r == SelectOne(n, sels[i])
  {
    var p := Probe(n, accept);
    assert forall i :: FirstWith(n, sels, accept, i) <==> FirstHit(sels, p, i);
    FirstSome(sels, p)
  }

  /** First-match law at element level: once selector `i` is the first to yield an
      acceptable element, any node that answers the same on selectors `0..i`
      gives the same element, so the later selectors are never consulted. */
  lemma FirstElementIgnoresLater(n: Node, other: Node, sels: seq<Selector>, accept: Node -> bool, i: int)
    requires FirstWith(n, sels, accept, i)
    requires forall j :: 0 <= j <= i ==> SelectOne(other, sels[j]) == SelectOne(n, sels[j])
    ensures FirstElement(other, sels, accept) == FirstElement(n, sels, accept) == SelectOne(n, sels[i])
  {
    assert FirstWith(other, sels, accept, i);
  }

  /** `select(s)` matched a list of elements that `accept` takes. */
  ghost predicate FirstListWith(n: Node, sels: seq<Selector>, accept: seq<Node> -> bool, i: int) {
    && 0 <= i < |sels|
    && accept(SelectAll(n, sels[i]))
    && forall j :: 0 <= j < i ==> !accept(SelectAll(n, sels[j]))
  }

  /** The match list chosen by a `for selector in ...: elems = select(selector);
      if <acceptable>: break` loop. */
  function FirstList(n: Node, sels: seq<Selector>, accept: seq<Node> -> bool): (r: Option<seq<Node>>)
    ensures r.None? <==> forall i :: 0 <= i < |sels| ==> !accept(SelectAll(n, sels[i]))
    ensures forall i :: FirstListWith(n, sels, accept, i) ==> r == Some(SelectAll(n, sels[i]))
    ensures r.Some? ==> accept(r.value)
  {
    var p := (s: Selector) => if accept(SelectAll(n, s)) then Some(SelectAll(n, s)) else None;
    assert forall i :: FirstListWith(n, sels, accept, i) <==> FirstHit(sels, p, i);
    FirstSome(sels, p)
  }
}
