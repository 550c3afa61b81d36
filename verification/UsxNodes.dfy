/** The XML document a book is held in. */
module UsxNodes {
  import opened Wrappers

  /** XML attributes by local name; their order carries no information in XML. */
  type Attrs = map<string, string>

  /**
   * An XML node. `invalid` records that schema validation reported this element (or one of its attributes);
   * validation itself is a library call, so the flag is a given of every document.
   */
  datatype Node =
    | Text(value: string)
    | Elem(name: string, attrs: Attrs, kids: seq<Node>, invalid: bool)

  predicate IsElement(n: Node, name: string) {
    n.Elem? && n.name == name
  }

  function Attr(n: Node, key: string): Option<string>
    requires n.Elem?
  {
    Lookup(n.attrs, key)
  }

  function Lookup(a: Attrs, key: string): Option<string> {
    if key in a then Some(a[key]) else None
  }

  /** The document as XML comparison sees it: validation results are not part of the content. */
  function Unmark(n: Node): Node {
    match n
    case Text(_) => n
    case Elem(name, attrs, kids, _) => Elem(name, attrs, UnmarkAll(kids), false)
  }

  function UnmarkAll(ns: seq<Node>): (r: seq<Node>)
    ensures |r| == |ns|
  {
    if ns == [] then [] else [Unmark(ns[0])] + UnmarkAll(ns[1..])
  }

  lemma {:induction false} UnmarkAppend(a: seq<Node>, b: seq<Node>)
    ensures UnmarkAll(a + b) == UnmarkAll(a) + UnmarkAll(b)
  {
    if a == [] {
      assert a + b == b;
    } else {
      assert (a + b)[1..] == a[1..] + b;
      UnmarkAppend(a[1..], b);
    }
  }

  lemma NothingUnmarked()
    ensures UnmarkAll([]) == []
  {
  }

  lemma OneUnmarked(n: Node)
    ensures UnmarkAll([n]) == [Unmark(n)]
  {
    assert [n][1..] == [];
  }

  lemma UnmarkedLength(ns: seq<Node>)
    ensures |UnmarkAll(ns)| == |ns|
  {
  }

  /** `XElement.Value`: all the text below a node, in order. */
  function TextOf(ns: seq<Node>): string {
    if ns == [] then ""
    else
      (match ns[0]
       case Text(v) => v
       case Elem(_, _, kids, _) => TextOf(kids)) + TextOf(ns[1..])
  }

  /** `Descendants(name).Any()` */
  predicate HasDescendant(ns: seq<Node>, name: string) {
    ns != [] && (
      (ns[0].Elem? && (ns[0].name == name || HasDescendant(ns[0].kids, name)))
      || HasDescendant(ns[1..], name))
  }
}
