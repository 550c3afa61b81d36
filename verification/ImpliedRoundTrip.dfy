/**
 * Text, verses, notes and other loose nodes at the top level. The walk inserts them without a block of their own; the
 * reader collects them on top of its stack. If there is a text, verse or note among them, a bare line break ends them,
 * which may be merged into the text before it. Here is what the reader makes of that line break, and what it makes of
 * the end of a delta without one.
 */
module ImpliedRoundTrip {
  import opened Wrappers
  import opened UsxNodes
  import opened RichText
  import opened ChapterWalk
  import opened DeltaReading
  import opened Grammar
  import opened InlineRoundTrip
  import opened BlockRoundTrip

  // ----- reading the line break

  /** A line break of its own ends the implied paragraph, after a table as well. */
  lemma BareBreakRead(m: Machine, nodes: seq<Node>)
    requires Idle(m)
    ensures TextRead(AddTop(m, nodes), "\n", PLAIN)
      == Machine(Settled(m) + nodes, [[]], [], None, if m.table.Some? then None else m.row)
  {
    hide WithoutLineBreaks;
    var a := AddTop(m, nodes);
    assert [] + nodes == nodes;
    var m1 := TableTracked(a, "\n", PLAIN);
    if m.table.Some? {
      assert a.stack == [m.stack[0], m.stack[1], nodes];
      assert RowEnded(a).1 == Some(nodes);
      assert m1.stack == [nodes];
    } else {
      assert a.stack == [nodes];
    }
    assert PlainTextRead(m1, "\n").stack == [[]];
  }

  lemma {:induction false} NoBreaksInside(text: string)
    requires '\n' !in text
    ensures WithoutLineBreaks(text + "\n") == text
  {
    if text == [] {
      assert (text + "\n")[1..] == [];
    } else {
      assert (text + "\n")[0] == text[0] && (text + "\n")[1..] == text[1..] + "\n";
      NoBreaksInside(text[1..]);
    }
  }

  /** What a line break that was merged into the text before it leaves: a table that is open stays open behind it. */
  function MergedBreak(m: Machine, nodes: seq<Node>): Machine
    requires Idle(m)
  {
    m.(content := m.content + nodes)
  }

  lemma MergedBreakRead(m: Machine, a: Machine, text: string, nodes: seq<Node>)
    requires Idle(m) && TextContent(text)
    requires a.Machine? && a.stack != [] && AddTop(a, [Text(text)]) == AddTop(m, nodes)
    ensures TextRead(a, text + "\n", PLAIN) == MergedBreak(m, nodes)
  {
    hide WithoutLineBreaks;
    NoBreaksInside(text);
    assert [] + nodes == nodes;
    assert AddTop(m, nodes).stack == m.stack[..|m.stack| - 1] + [nodes];
    assert TableTracked(a, text + "\n", PLAIN) == a;
    assert PlainTextRead(a, text + "\n").stack == m.stack[..|m.stack| - 1] + [[]] == m.stack;
  }

  // ----- the walk over loose nodes

  /** The last op is that of the last loose node, or a chapter that did not end the run. */
  predicate LastOpOf(w: Walk, n: Node)
    requires w.ops != []
  {
    Last(w.ops).insert.Embed?
    || ((n.Text? ==> TextContent(n.value) && Last(w.ops) == Op(Str(n.value), WithSegment(PLAIN, w.curRef)))
        && (IsElement(n, "ref") ==> RefText(n) && Last(w.ops) == RefOp(n, w.curRef)))
  }

  predicate RefText(n: Node)
    requires n.Elem?
  {
    |n.kids| == 1 && n.kids[0].Text? && TextContent(n.kids[0].value)
  }

  function RefOp(n: Node, segRef: Option<string>): Op
    requires n.Elem? && RefText(n)
  {
    Op(Str(n.kids[0].value), WithSegment(InlineInvalid(PLAIN.(ref := Some(n.attrs)), n.invalid), segRef))
  }

  /** Since the boundary `w0` the reader has collected the loose nodes `ns` and no block. */
  ghost predicate Pending(w0: Walk, w: Walk, ns: seq<Node>) {
    ns != [] && AtBoundary(w0)
    && Adds(w0.(implied := w.implied, chapterIsValid := w.chapterIsValid), w, PLAIN, UnmarkAll(ns))
    && EndsWith(w, ns[|ns| - 1], PLAIN) && LastOpOf(w, ns[|ns| - 1])
  }

  /** The walk after a loose node. */
  function LooseWalked(n: Node, w: Walk, chapterIsValid: bool): Walk {
    WalkNode(n, w, PLAIN).(implied := w.implied || StartsImplied(n), chapterIsValid := chapterIsValid)
  }

  lemma LooseFirst(n: Node, w0: Walk, chapterIsValid: bool)
    requires AtBoundary(w0) && Loose(n)
    ensures Pending(w0, LooseWalked(n, w0, chapterIsValid), [n])
  {
    hide Run, Aligned, WalkNode, Inline;
    BoundaryCanFollow(w0, n);
    NodeRoundTrip(n, w0, PLAIN);
    LooseEnd(n, w0);
    OneUnmarked(n);
    assert [n][0] == n;
  }

  /** What the last loose node leaves. */
  lemma LooseEnd(n: Node, w: Walk)
    requires Loose(n) && CanFollow(w, n, PLAIN) && EndsWith(WalkNode(n, w, PLAIN), n, PLAIN)
    ensures LastOpOf(WalkNode(n, w, PLAIN), n)
  {
    hide Run;
    if IsElement(n, "ref") { RefEnd(n, w); }
  }

  lemma RefEnd(n: Node, w: Walk)
    requires IsElement(n, "ref") && Loose(n) && CanFollow(w, n, PLAIN)
    ensures RefText(n) && WalkNode(n, w, PLAIN).ops == w.ops + [RefOp(n, w.curRef)]
    ensures WalkNode(n, w, PLAIN).curRef == w.curRef
  {
    var text := n.kids[0].value;
    assert TextOf(n.kids) == text + TextOf(n.kids[1..]) == text;
  }

  /** A loose node may come next unless it would run together with the last one. */
  lemma LooseNext(n: Node, w0: Walk, w: Walk, ns: seq<Node>, chapterIsValid: bool)
    requires Pending(w0, w, ns) && Loose(n) && (Apart(ns[|ns| - 1], n) || Last(w.ops).insert.Embed?)
    ensures Pending(w0, LooseWalked(n, w, chapterIsValid), ns + [n])
  {
    hide Run, Aligned, WalkNode, Inline, LastOpOf, UnmarkAll, AddTop, AtBoundary, EndsWith, Adds;
    var w1 := WalkNode(n, w, PLAIN);
    LooseMayFollow(w, ns[|ns| - 1], n);
    PendingReady(w0, w, ns);
    NodeRoundTrip(n, w, PLAIN);
    LooseEnd(n, w);
    UnmarkAppend(ns, [n]);
    OneUnmarked(n);
    AddsMore(w0, w, w1, LooseWalked(n, w, chapterIsValid), UnmarkAll(ns), Unmark(n));
    LastOpKept(w1, LooseWalked(n, w, chapterIsValid), n);
  }

  lemma LooseMayFollow(w: Walk, last: Node, n: Node)
    requires EndsWith(w, last, PLAIN) && (Apart(last, n) || Last(w.ops).insert.Embed?)
    ensures CanFollow(w, n, PLAIN)
  {
    hide Run;
  }

  lemma PendingReady(w0: Walk, w: Walk, ns: seq<Node>)
    requires Pending(w0, w, ns)
    ensures Ready(w) && AllIssued(PLAIN.chars, w.nextGuid)
  {
    hide Run, Aligned, UnmarkAll;
  }

  lemma AddsMore(w0: Walk, w: Walk, w1: Walk, w2: Walk, nodes: seq<Node>, x: Node)
    requires Adds(w0.(implied := w.implied, chapterIsValid := w.chapterIsValid), w, PLAIN, nodes)
    requires Adds(w, w1, PLAIN, [x]) && w2 == w1.(implied := w2.implied, chapterIsValid := w2.chapterIsValid)
    ensures Adds(w0.(implied := w2.implied, chapterIsValid := w2.chapterIsValid), w2, PLAIN, nodes + [x])
  {
    hide Run, Aligned, AddTop;
    AddedTwice(Aligned(Run(w0.ops), []), nodes, [x]);
  }

  lemma LastOpKept(w: Walk, w1: Walk, n: Node)
    requires EndsWith(w, n, PLAIN) && LastOpOf(w, n) && w1.ops == w.ops && w1.curRef == w.curRef
    ensures EndsWith(w1, n, PLAIN) && LastOpOf(w1, n)
  {
    hide Run;
  }

  /** Only a verse changes the current reference. */
  lemma {:induction false} InlineRef(n: Node, w: Walk, f: Fmt)
    requires Inline(n, f.chars != [])
    ensures if IsElement(n, "verse") then WalkNode(n, w, f).curRef.Some? else WalkNode(n, w, f).curRef == w.curRef
    decreases n, 1
  {
    if IsElement(n, "char") {
      InlinesRef(n.kids, w.(nextGuid := w.nextGuid + 1), CharFmt(n.attrs, n.invalid, w.nextGuid, f));
    }
  }

  lemma {:induction false} InlinesRef(ns: seq<Node>, w: Walk, f: Fmt)
    requires Inlines(ns, true) && f.chars != []
    ensures WalkNodes(ns, w, f).curRef == w.curRef
    decreases ns, 0
  {
    if ns != [] {
      InlineRef(ns[0], w, f);
      InlinesRef(ns[1..], WalkNode(ns[0], w, f), f);
    }
  }

  lemma MoreLoose(ns: seq<Node>, n: Node)
    ensures HasImplied(ns + [n]) <==> HasImplied(ns) || StartsImplied(n)
    ensures HasVerse(ns + [n]) <==> HasVerse(ns) || IsElement(n, "verse")
  {
    var all := ns + [n];
    assert all[|ns|] == n && forall i :: 0 <= i < |ns| ==> all[i] == ns[i];
  }

  // ----- the end of a run that asked for a line break

  /** The break is merged into loose text without a reference. With a table open, that puts the run before the table. */
  predicate Swaps(w0: Walk, w: Walk, ns: seq<Node>) {
    ns != [] && ns[|ns| - 1].Text? && w.curRef.None? && Run(w0.ops).Machine? && Run(w0.ops).table.Some?
    && w.ops != [] && Last(w.ops).insert.Str?
  }

  /** What the reader has after the line break of a run. */
  function BreakRead(w0: Walk, w: Walk, ns: seq<Node>): Machine
    requires Idle(Run(w0.ops))
  {
    var m := Run(w0.ops);
    if Swaps(w0, w, ns) then MergedBreak(m, UnmarkAll(ns))
    else Machine(Settled(m) + UnmarkAll(ns), [[]], [], None, if m.table.Some? then None else m.row)
  }

  /** A line break, merged into text or not, is read as the end of the loose nodes. */
  lemma ImpliedBreak(w0: Walk, w: Walk, ns: seq<Node>)
    requires Pending(w0, w, ns) && w.implied
    ensures var ops := ImpliedEnded(w).ops;
      ops != [] && Last(ops).fmt == PLAIN && Run(ops) == BreakRead(w0, w, ns)
  {
    hide Run, Aligned, TextRead, UnmarkAll, AddTop;
    var m, nodes := Run(w0.ops), UnmarkAll(ns);
    var ended := SegmentEnded(w.ops, w.curRef);
    AlignedSame(m);
    SegmentEndedReady(w);
    if ended != [] && Merges(ended, PLAIN) {
      MergedImplied(w0, w, ns);
    } else {
      BreakApart(w, ns[|ns| - 1]);
      BareBreakRead(m, nodes);
      TextStep(ended, Op(Str("\n"), PLAIN));
    }
  }

  lemma BreakApart(w: Walk, last: Node)
    requires EndsWith(w, last, PLAIN) && LastOpOf(w, last)
    ensures last.Text? && w.curRef.None? && Last(w.ops).insert.Str? ==> Merges(SegmentEnded(w.ops, w.curRef), PLAIN)
  {
  }

  lemma MergedImplied(w0: Walk, w: Walk, ns: seq<Node>)
    requires Pending(w0, w, ns) && w.implied && Merges(SegmentEnded(w.ops, w.curRef), PLAIN)
    ensures var ops := ImpliedEnded(w).ops;
      ops != [] && Last(ops).fmt == PLAIN && Run(ops) == BreakRead(w0, w, ns)
  {
    hide Run, Aligned, TextRead, UnmarkAll, AddTop, ImpliedEnded, SegmentEnded, Inline, EndsWith, LastOpOf;
    var m, last := Run(w0.ops), ns[|ns| - 1];
    LastIsText(w, last);
    var front, text := w.ops[..|w.ops| - 1], last.value;
    MergedOps(w, front, text);
    TextStep(front, Op(Str(text + "\n"), PLAIN));
    AlignedSame(m);
    PlainTop(w, front, text);
    MergedBreakRead(m, Aligned(Run(front), []), text, UnmarkAll(ns));
  }

  lemma MergedOps(w: Walk, front: seq<Op>, text: string)
    requires w.ops != [] && front == w.ops[..|w.ops| - 1] && Last(w.ops) == Op(Str(text), PLAIN)
    requires w.implied && SegmentEnded(w.ops, w.curRef) == w.ops
    ensures w.ops == front + [Op(Str(text), PLAIN)]
    ensures ImpliedEnded(w).ops == front + [Op(Str(text + "\n"), PLAIN)]
  {
  }

  /** Only loose text without a reference is extended by the line break. */
  lemma LastIsText(w: Walk, last: Node)
    requires EndsWith(w, last, PLAIN) && LastOpOf(w, last) && Merges(SegmentEnded(w.ops, w.curRef), PLAIN)
    ensures last.Text? && w.curRef.None? && SegmentEnded(w.ops, w.curRef) == w.ops && TextContent(last.value)
    ensures Last(w.ops) == Op(Str(last.value), PLAIN)
  {
  }

  /** The state before the last text. */
  lemma PlainTop(w: Walk, front: seq<Op>, text: string)
    requires Ready(w) && w.ops == front + [Op(Str(text), PLAIN)] && TextContent(text)
    ensures var a := Aligned(Run(front), []);
      a.Machine? && a.stack != [] && AddTop(a, [Text(text)]) == Aligned(Run(w.ops), [])
  {
    hide Run, Aligned;
    var a := Aligned(Run(front), []);
    TextStep(front, Op(Str(text), PLAIN));
    assert text[|text| - 1] in text;
    assert a.Machine? ==> TableTracked(a, text, PLAIN) == a;
    AlignedChars(Run(front), []);
    AlignedSame(Run(w.ops));
  }

  /** After its line break the walk is between blocks again. */
  lemma {:induction false} ImpliedDone(w0: Walk, w: Walk, ns: seq<Node>)
    requires Pending(w0, w, ns) && w.implied
    ensures var w1 := ImpliedEnded(w);
      && AtBreak(w1)
      && Run(w1.ops) == BreakRead(w0, w, ns)
      && Settled(Run(w1.ops)) == if Swaps(w0, w, ns) then Swapped(Run(w0.ops), UnmarkAll(ns))
                                 else Settled(Run(w0.ops)) + UnmarkAll(ns)
  {
    hide Run, Aligned, UnmarkAll, AddTop, ImpliedEnded, EndsWith, Settled, Numbered;
    ImpliedBreak(w0, w, ns);
    ImpliedFields(w);
    BetweenBlocks(w0, w, ImpliedEnded(w), ns);
  }

  /** The loose nodes before the table that they followed. */
  function Swapped(m: Machine, nodes: seq<Node>): seq<Node>
    requires Idle(m) && m.table.Some?
  {
    m.content + nodes + [Settled(m)[|m.content|]]
  }

  lemma BetweenBlocks(w0: Walk, w: Walk, w1: Walk, ns: seq<Node>)
    requires AtBoundary(w0) && w0.tableIndex == w1.tableIndex
    requires w1.ops != [] && Last(w1.ops).fmt == PLAIN && Run(w1.ops) == BreakRead(w0, w, ns)
    ensures AtBreak(w1)
    ensures Settled(Run(w1.ops)) == if Swaps(w0, w, ns) then Swapped(Run(w0.ops), UnmarkAll(ns))
                                    else Settled(Run(w0.ops)) + UnmarkAll(ns)
  {
    hide Run, UnmarkAll;
  }

  lemma ImpliedFields(w: Walk)
    ensures var w1 := ImpliedEnded(w); w1 == w.(ops := w1.ops, implied := false)
    ensures ImpliedEnded(ImpliedEnded(w)) == ImpliedEnded(w)
  {
  }

  /** A line break without loose nodes before it adds nothing, but ends a table. */
  lemma EmptyBreak(w: Walk)
    requires AtBoundary(w) && w.implied
    ensures var w1 := ImpliedEnded(w);
      AtBreak(w1) && Run(w1.ops).table.None? && Settled(Run(w1.ops)) == Settled(Run(w.ops))
  {
    hide Run, Aligned, TextRead, AddTop, Settled;
    var m, ended := Run(w.ops), SegmentEnded(w.ops, w.curRef);
    AlignedSame(m);
    SegmentEndedReady(w);
    TextStep(ended, Op(Str("\n"), PLAIN));
    AddedNothing(m);
    BareBreakRead(m, []);
    assert Settled(m) + [] == Settled(m);
    EmptyBetween(w, ImpliedEnded(w));
  }

  lemma EmptyBetween(w: Walk, w1: Walk)
    requires w1.ops != [] && Last(w1.ops).fmt == PLAIN && Idle(Run(w.ops)) && Run(w1.ops).Machine?
    requires Run(w1.ops) == Machine(Settled(Run(w.ops)), [[]], [], None, Run(w1.ops).row)
    ensures AtBreak(w1) && Run(w1.ops).table.None? && Settled(Run(w1.ops)) == Settled(Run(w.ops))
  {
    hide Run;
  }

  // ----- the end of a run that did not

  /** At the end of a section, what waits without a line break comes last; behind a table that is open it is lost. */
  lemma PendingFinished(w0: Walk, w: Walk, ns: seq<Node>)
    requires Pending(w0, w, ns) && !w.implied
    ensures ProcessDelta(ImpliedEnded(w).ops)
      == Some(if Run(w0.ops).table.Some? then Settled(Run(w0.ops)) else Settled(Run(w0.ops)) + UnmarkAll(ns))
  {
    hide Run, Aligned, AddTop, UnmarkAll, Settled;
    AllClosed(Run(w.ops));
    AlignedSame(Run(w0.ops));
    WaitingFinished(Run(w0.ops), UnmarkAll(ns));
    FinishedAligned(Run(w.ops), AddTop(Run(w0.ops), UnmarkAll(ns)));
  }

  lemma FinishedAligned(m: Machine, a: Machine)
    requires CharsClosed(m, []) == a && a.Machine? && a.chars == []
    ensures Finished(m) == Finished(a)
  {
    assert CharsClosed(a, []) == a;
  }

  lemma WaitingFinished(m: Machine, nodes: seq<Node>)
    requires Idle(m)
    ensures AddTop(m, nodes).Machine? && AddTop(m, nodes).chars == []
    ensures Finished(AddTop(m, nodes)) == Some(if m.table.Some? then Settled(m) else Settled(m) + nodes)
  {
    var a := AddTop(m, nodes);
    assert [] + nodes == nodes && CharsClosed(a, []) == a;
    if m.table.None? {
      assert a.stack == [nodes];
    } else {
      assert RowEnded(a).0 == RowEnded(m).0;
      IdleFinished(m);
    }
  }

  lemma IdleFinished(m: Machine)
    requires Idle(m)
    ensures Finished(m) == Some(Settled(m))
  {
    if m.table.None? {
      assert m.content + [] == m.content;
    } else {
      var row := RowElem(m.stack[1]);
      assert RowEnded(m).0 == m.(stack := [m.stack[0] + [row]], row := None);
      var m2 := TableEnded(RowEnded(m).0);
      assert m2.stack == [[]] && m2.content == Settled(m);
      assert m2.content + [] == m2.content;
    }
  }
}
