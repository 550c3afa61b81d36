/** When taking a book apart throws: at a paragraph without a style, where no reference is current. Any book at all. */
module UnstyledParas {
  import opened Wrappers
  import opened Decimal
  import opened UsxNodes
  import opened RichText
  import opened ChapterWalk
  import opened VersePlaces

  // ----- whether a reference is current, read off the nodes

  function RefAfter(n: Node, current: bool): bool {
    match n
    case Text(_) => current
    case Elem(name, _, kids, _) =>
      if name == "verse" then true
      else if name == "table" then false
      else if name == "char" || name == "cell" then RefsAfter(kids, current)
      else current
  }

  function RefsAfter(ns: seq<Node>, current: bool): bool {
    if ns == [] then current else RefsAfter(ns[1..], RefAfter(ns[0], current))
  }

  function TopRefAfter(n: Node, current: bool): bool {
    if IsElement(n, "para") || IsElement(n, "book") then
      HoldsVerses(Attr(n, "style")) && RefsAfter(n.kids, true)
    else !IsElement(n, "chapter") && RefAfter(n, current)
  }

  predicate Unstyled(n: Node) {
    (IsElement(n, "para") || IsElement(n, "book")) && Attr(n, "style").None?
  }

  /** Some paragraph without a style stands where no reference is current. */
  predicate Throws(children: seq<Child>, current: bool) {
    children != []
    && ((Unstyled(children[0].node) && !current) || Throws(children[1..], TopRefAfter(children[0].node, current)))
  }

  // ----- the walk follows

  lemma {:induction false} NodeRef(n: Node, w: Walk, f: Fmt)
    ensures WalkNode(n, w, f).curRef.Some? <==> RefAfter(n, w.curRef.Some?)
    decreases n, 1
  {
    hide WalkRows, WalkNodes, Appended, SegmentEnded;
    if n.Elem? {
      if n.name == "char" {
        CharRef(n, w, f);
      } else if n.name == "cell" {
        NodesRef(n.kids, w, PLAIN);
      }
    }
  }

  lemma {:induction false} CharRef(n: Node, w: Walk, f: Fmt)
    requires n.Elem?
    ensures WalkChar(n, w, f).curRef.Some? <==> RefsAfter(n.kids, w.curRef.Some?)
    decreases n, 0
  {
    hide WalkNodes, Appended;
    var w0 := if "cid" in n.attrs then w else w.(nextGuid := w.nextGuid + 1);
    NodesRef(n.kids, w0, CharFmt(n.attrs, n.invalid, w.nextGuid, f));
  }

  lemma {:induction false} NodesRef(ns: seq<Node>, w: Walk, f: Fmt)
    ensures WalkNodes(ns, w, f).curRef.Some? <==> RefsAfter(ns, w.curRef.Some?)
    decreases ns
  {
    hide WalkNode, RefAfter;
    if ns != [] {
      NodeRef(ns[0], w, f);
      NodesRef(ns[1..], WalkNode(ns[0], w, f), f);
    }
  }

  lemma ChildRef(child: Child, s: BookWalk)
    requires s.BookWalk?
    ensures var s1 := WalkChild(child, s);
      && (s1.Crashed? <==> Unstyled(child.node) && s.walk.curRef.None?)
      && (s1.BookWalk? ==> (s1.walk.curRef.Some? <==> TopRefAfter(child.node, s.walk.curRef.Some?)))
  {
    hide WalkNode, WalkNodes, Appended, SegmentEnded, HoldsVerses, RefAfter, RefsAfter, CutAt;
    var n := child.node;
    NodeRef(n, s.walk, PLAIN);
    if n.Text? {
      TextRef(n);
    } else if n.name == "para" || n.name == "book" {
      ParaRefs(n, if n.name == "book" then s.(bookIsValid := child.isValid) else s);
    }
  }

  lemma TextRef(n: Node)
    requires n.Text?
    ensures forall current :: RefAfter(n, current) == current
  {
  }

  lemma ParaRefs(n: Node, s: BookWalk)
    requires s.BookWalk? && (IsElement(n, "para") || IsElement(n, "book"))
    ensures WalkPara(n, s).Crashed? <==> Unstyled(n) && s.walk.curRef.None?
    ensures WalkPara(n, s).BookWalk? ==>
      (WalkPara(n, s).walk.curRef.Some? <==> HoldsVerses(Attr(n, "style")) && RefsAfter(n.kids, true))
  {
    hide WalkNodes, Appended, SegmentEnded, RefsAfter, CutAt;
    VerseStyles(Attr(n, "style"));
    var w := ImpliedEnded(s.walk);
    var key := ParaKey(Attr(n, "style"), w.curRef);
    if key.Some? {
      NodesRef(n.kids, w.(curRef := Some(ParaRef(key.value.1, NextId(s.nextIds, key.value.0)))), PLAIN);
    }
  }

  lemma {:induction false} WalkThrows(children: seq<Child>, s: BookWalk)
    requires s.BookWalk?
    ensures WalkBook(children, s).Crashed? <==> Throws(children, s.walk.curRef.Some?)
    decreases |children|
  {
    hide WalkChild, TopRefAfter, Unstyled;
    if children != [] {
      ChildRef(children[0], s);
      var s1 := WalkChild(children[0], s);
      if s1.BookWalk? { WalkThrows(children[1..], s1); } else { CrashStays(children[1..]); }
    }
  }

  lemma {:induction false} CrashStays(children: seq<Child>)
    ensures WalkBook(children, Crashed).Crashed?
  {
    if children != [] { CrashStays(children[1..]); }
  }

  // ----- results

  /** For every list of nodes whatsoever, taking the book apart throws exactly at such a paragraph. */
  lemma {:induction false} ThrowsExactly(children: seq<Child>, g: nat)
    ensures ToChapterDeltas(children, g).None? <==> Throws(children, false)
  {
    hide Throws;
    WalkThrows(children, Start(g));
  }

  /** With a style on every top-level `para` and `book`, it never throws. */
  lemma {:induction false} StyledNeverThrows(children: seq<Child>, current: bool)
    requires forall i :: 0 <= i < |children| ==> !Unstyled(children[i].node)
    ensures !Throws(children, current)
    decreases |children|
  {
    hide Unstyled, TopRefAfter;
    if children != [] { StyledNeverThrows(children[1..], TopRefAfter(children[0].node, current)); }
  }

  /** The smallest book on which it does. */
  lemma {:induction false} UnstyledParaThrows(kids: seq<Node>, invalid: bool, isValid: bool, g: nat)
    ensures ToChapterDeltas([Child(Elem("para", map[], kids, invalid), isValid)], g).None?
  {
    ThrowsExactly([Child(Elem("para", map[], kids, invalid), isValid)], g);
  }
}
