/** The parsed-document oracle. A node stands for a document or an element of
    it: its whitespace-stripped text (`get_text(strip=True)`), its attributes,
    and, for every CSS selector the parser would match inside it, the matched
    elements in document order. Selector evaluation itself is not modelled:
    `matches` records its outcome. */
module Dom {
  import opened Options

  type Selector = string

  datatype Node = Node(text: string, attrs: map<string, string>, matches: map<Selector, seq<Node>>)

  /** `node.select(s)` */
  function SelectAll(n: Node, s: Selector): seq<Node> {
    if s in n.matches then n.matches[s] else []
  }

  /** `node.select_one(s)`: the first element `select` would return. */
  function SelectOne(n: Node, s: Selector): Option<Node> {
    var all := SelectAll(n, s);
    if |all| > 0 then Some(all[0]) else None
  }

  /** `node.get(name)` */
  function Attr(n: Node, name: string): Option<string> {
    if name in n.attrs then Some(n.attrs[name]) else None
  }

  /** Python truthiness of `node.get(name)`: present and non-empty. */
  predicate HasAttr(n: Node, name: string) {
    name in n.attrs && n.attrs[name] != ""
  }
}
