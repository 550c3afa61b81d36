/** Paragraphs inside an embedded element, such as a note with several of them. */
module NestedParas {
  import opened Wrappers
  import opened UsxNodes
  import opened RichText
  import opened ChapterWalk
  import opened DeltaReading
  import opened Grammar
  import opened InlineRoundTrip
  import opened BlockRoundTrip

  predicate NestedPara(n: Node) {
    IsElement(n, "para") && PlainAttrs(n.attrs) && n.kids != [] && Inlines(n.kids, false)
  }

  predicate NestedParas(ns: seq<Node>) {
    ns == [] || (NestedPara(ns[0]) && NestedParas(ns[1..]))
  }

  /** The paragraphs so far have been read, and nothing is open. */
  ghost predicate AfterParas(w: Walk, done: seq<Node>) {
    && Ready(w) && Run(w.ops) == Machine(done, [[]], [], None, None)
    && (w.ops != [] ==> Last(w.ops).fmt.block.Some?)
  }

  /** One paragraph more. The walk that surrounds it goes on with the reference it had. */
  lemma NestedParaRead(n: Node, w: Walk, done: seq<Node>)
    requires AfterParas(w, done) && NestedPara(n)
    ensures AfterParas(WalkNode(n, w, PLAIN), done + [Unmark(n)])
    ensures WalkNode(n, w, PLAIN).curRef == w.curRef && w.nextGuid <= WalkNode(n, w, PLAIN).nextGuid
  {
    hide Run, UnmarkAll, WalkNodes, HasMisplacedVerse, Inlines, Appended, Aligned, TextRead, AddTop;
    var w0 := FreshState(w.ops, w.nextGuid);
    var inner := WalkNodes(n.kids, w0, PLAIN);
    ParaKids(n, w0, done);
    ParaBreak(n, inner, UnmarkAll(n.kids), done);
    assert WalkNode(n, w, PLAIN).ops == Appended(inner.ops, Op(Str("\n"), ParaFmt(n)));
  }

  lemma ParaBreak(n: Node, w: Walk, kids: seq<Node>, done: seq<Node>)
    requires n.Elem? && PlainAttrs(n.attrs) && w.ops != [] && Last(w.ops).fmt.block.None?
    requires Aligned(Run(w.ops), []) == AddTop(Machine(done, [[]], [], None, None), kids)
    ensures var ops := Appended(w.ops, Op(Str("\n"), ParaFmt(n)));
      && ops != [] && Last(ops).fmt.block.Some?
      && Run(ops) == Machine(done + [Elem(n.name, n.attrs, kids, false)], [[]], [], None, None)
  {
    hide Run, HasMisplacedVerse, Aligned, TextRead, AddTop;
    var op := Op(Str("\n"), ParaFmt(n));
    assert Appended(w.ops, op) == w.ops + [op];
    TextStep(w.ops, op);
    ParaRead(Machine(done, [[]], [], None, None), kids, n, ParaFmt(n));
  }

  lemma ParaKids(n: Node, w: Walk, done: seq<Node>)
    requires AfterParas(w, done) && NestedPara(n)
    ensures var inner := WalkNodes(n.kids, w, PLAIN);
      && Ready(inner) && w.nextGuid <= inner.nextGuid
      && inner.ops != [] && Last(inner.ops).fmt.block.None?
      && Aligned(Run(inner.ops), []) == AddTop(Machine(done, [[]], [], None, None), UnmarkAll(n.kids))
  {
    hide Run, UnmarkAll;
    AlignedSame(Run(w.ops));
    InlinesRoundTrip(n.kids, w, PLAIN);
  }

  lemma {:induction false} ParasRead(ns: seq<Node>, w: Walk, done: seq<Node>)
    requires AfterParas(w, done) && NestedParas(ns)
    ensures AfterParas(WalkNodes(ns, w, PLAIN), done + UnmarkAll(ns))
    decreases ns
  {
    hide AfterParas, NestedPara, Unmark, WalkNode;
    if ns == [] {
      assert done + [] == done;
    } else {
      NestedParaRead(ns[0], w, done);
      ParasRead(ns[1..], WalkNode(ns[0], w, PLAIN), done + [Unmark(ns[0])]);
      assert done + [Unmark(ns[0])] + UnmarkAll(ns[1..]) == done + UnmarkAll(ns);
    }
  }

  /** The delta inside an embed that holds paragraphs describes them, in order. */
  lemma {:induction false} NestedParasRoundTrip(ns: seq<Node>, g: nat)
    requires NestedParas(ns)
    ensures ProcessDelta(WalkNodes(ns, FreshState([], g), PLAIN).ops) == Some(UnmarkAll(ns))
  {
    hide WalkNodes, NestedParas;
    var w := FreshState([], g);
    assert Run([]) == INITIAL && AfterParas(w, []);
    ParasRead(ns, w, []);
    assert [] + UnmarkAll(ns) + [] == UnmarkAll(ns);
  }
}
