/**
 * What each block does to the loose nodes that wait before it. If they asked for a line break they come before the
 * block; if not, they become the beginning of a paragraph or of a table's first cell, also where their last op runs
 * together with the block's first one. A first chapter drops them behind a table, and otherwise leaves them waiting.
 */
module BlockEvents {
  import opened Wrappers
  import opened UsxNodes
  import opened RichText
  import opened ChapterWalk
  import opened DeltaReading
  import opened Grammar
  import opened InlineRoundTrip
  import opened BlockRoundTrip
  import opened ImpliedRoundTrip
  import opened InsertedOps

  /** The loose nodes `ns` wait since the boundary `w0`; there may be none. */
  ghost predicate Waits(w0: Walk, w: Walk, ns: seq<Node>) {
    if ns == [] then w0 == w && AtBoundary(w) else Pending(w0, w, ns)
  }

  /** The boundary, with what else the walk has changed since. */
  function Since(w0: Walk, w: Walk): Walk {
    w0.(implied := w.implied, chapterIsValid := w.chapterIsValid)
  }

  // ----- a block that begins with what waits

  /** Only the last node of the top list differs. */
  lemma TopReplaced(a: Machine, m: Machine, q: seq<Node>, x: Node, x1: Node, z: Node)
    requires a.Machine? && a.stack != [] && Idle(m) && AddTop(a, [x]) == AddTop(m, q + [x1])
    ensures AddTop(a, [z]) == AddTop(m, q + [z])
  {
    var s, t := AddTop(a, [x]).stack, AddTop(m, q + [x1]).stack;
    assert s[..|s| - 1] == a.stack[..|a.stack| - 1] && t[..|t| - 1] == m.stack[..|m.stack| - 1];
    assert s[|s| - 1] == Top(a) + [x] && t[|t| - 1] == q + [x1];
    assert Top(a) == s[|s| - 1][..|Top(a)|] == q;
    assert Top(m) + (q + [z]) == q + [z];
    assert AddTop(a, [z]).stack == AddTop(m, q + [z]).stack;
  }

  /** The formatting of loose text, or of a loose `ref`. */
  predicate LooseFmt(fmt: Fmt) {
    fmt == PLAIN.(segment := fmt.segment, ref := fmt.ref, invalidInline := fmt.invalidInline)
    && (fmt.ref.None? ==> !fmt.invalidInline)
  }

  function NodeOf(text: string, fmt: Fmt): Node {
    if fmt.ref.Some? then Container("ref", fmt.ref.value, [Text(text)]) else Text(text)
  }

  lemma LooseTextRead(a: Machine, text: string, fmt: Fmt)
    requires TextContent(text) && LooseFmt(fmt)
    ensures TextRead(a, text, fmt) == AddTop(a, [NodeOf(text, fmt)])
  {
    hide WithoutLineBreaks;
    assert text[|text| - 1] in text;
    assert TableTracked(a, text, fmt) == a;
    assert fmt.ref.Some? ==> fmt != PLAIN.(segment := fmt.segment);
  }

  /** Text that runs together with that of the last loose node is read as one node with it. */
  lemma OpsMerged(w0: Walk, w: Walk, w3: Walk, ns: seq<Node>, front: seq<Op>, s: string, t: string, fmt: Fmt)
    requires Pending(w0, w, ns) && w.ops == front + [Op(Str(s), fmt)] && TextContent(s) && LooseFmt(fmt)
    requires w3.ops == front + [Op(Str(s + t), fmt)] && TextContent(s + t)
    requires w3 == w.(ops := w3.ops, curRef := w3.curRef) && w3.curRef.Some?
    ensures Adds(Since(w0, w), w3, PLAIN, UnmarkAll(ns[..|ns| - 1]) + [NodeOf(s + t, fmt)])
  {
    hide TextRead, Aligned, Run, UnmarkAll, AddTop;
    var a, m, last := Aligned(Run(front), []), Run(w0.ops), ns[|ns| - 1];
    TextStep(front, Op(Str(s), fmt));
    TextStep(front, Op(Str(s + t), fmt));
    LooseTextRead(a, s, fmt);
    LooseTextRead(a, s + t, fmt);
    RunChars(w.ops);
    AlignedSame(Run(w.ops));
    AlignedSame(m);
    assert ns == ns[..|ns| - 1] + [last];
    UnmarkAppend(ns[..|ns| - 1], [last]);
    OneUnmarked(last);
    Addable(a, [NodeOf(s, fmt)]);
    TopReplaced(a, m, UnmarkAll(ns[..|ns| - 1]), NodeOf(s, fmt), Unmark(last), NodeOf(s + t, fmt));
    AlignedNoChars(front);
    AddedSound(a, NodeOf(s + t, fmt));
    AlignedSame(Run(w3.ops));
  }

  lemma Addable(a: Machine, nodes: seq<Node>)
    requires AddTop(a, nodes).Machine?
    ensures a.Machine? && a.stack != []
  {
  }

  lemma AlignedNoChars(front: seq<Op>)
    ensures Aligned(Run(front), []).Machine? ==> Aligned(Run(front), []).chars == []
  {
    AlignedChars(Run(front), []);
  }

  lemma AddedSound(a: Machine, z: Node)
    requires a.Machine? && a.stack != [] && a.chars == []
    ensures Sound(AddTop(a, [z])) && AddTop(a, [z]).chars == []
  {
  }

  /** An inline node whose op runs together with that of the last loose node, after the reference has changed. */
  lemma RunTogether(w0: Walk, w: Walk, ns: seq<Node>, segRef: string, y: Node) returns (z: Node)
    requires Pending(w0, w, ns) && Inline(y, false)
    requires !CanFollow(w.(curRef := Some(segRef)), y, PLAIN)
    ensures var w3 := WalkNode(y, w.(curRef := Some(segRef)), PLAIN);
      && Adds(Since(w0, w), w3, PLAIN, UnmarkAll(ns[..|ns| - 1]) + [z])
      && EndsWith(w3, y, PLAIN) && w3.curRef.Some?
    ensures y.Elem? ==> z.Elem?
  {
    hide Run, Adds, Aligned, UnmarkAll;
    var w2 := w.(curRef := Some(segRef));
    var w3 := WalkNode(y, w2, PLAIN);
    var last, front := Last(w.ops), w.ops[..|w.ops| - 1];
    var t := MergedInto(w, ns[|ns| - 1], w2, y);
    z := NodeOf(last.insert.text + t, last.fmt);
    assert w.ops == front + [Op(Str(last.insert.text), last.fmt)];
    OpsMerged(w0, w, w3, ns, front, last.insert.text, t, last.fmt);
    AddsEnds(Since(w0, w), w3, UnmarkAll(ns[..|ns| - 1]) + [z], y);
  }

  lemma MergedInto(w: Walk, x: Node, w2: Walk, y: Node) returns (t: string)
    requires EndsWith(w, x, PLAIN) && LastOpOf(w, x) && w2 == w.(curRef := w2.curRef) && w2.curRef.Some?
    requires Inline(y, false) && !CanFollow(w2, y, PLAIN)
    ensures var w3, last := WalkNode(y, w2, PLAIN), Last(w.ops);
      && last.insert.Str? && TextContent(last.insert.text) && LooseFmt(last.fmt) && TextContent(last.insert.text + t)
      && w3 == w2.(ops := w.ops[..|w.ops| - 1] + [Op(Str(last.insert.text + t), last.fmt)])
      && (y.Elem? ==> last.fmt.ref.Some?)
      && (if y.Text? then last.fmt.ref.None? else y.name == "ref" && last.fmt.ref == Some(y.attrs))
  {
    hide Run;
    if y.Text? {
      t := y.value;
    } else {
      t := y.kids[0].value;
      assert TextOf(y.kids) == t + TextOf(y.kids[1..]) == t;
    }
  }

  lemma AddsEnds(w: Walk, w3: Walk, nodes: seq<Node>, y: Node)
    requires Adds(w, w3, PLAIN, nodes) && w3.ops != [] && Last(w3.ops).insert.Str? && LooseFmt(Last(w3.ops).fmt)
    requires if y.Text? then Last(w3.ops).fmt.ref.None? else y.name == "ref" && Last(w3.ops).fmt.ref == Some(y.attrs)
    ensures EndsWith(w3, y, PLAIN)
  {
    hide Run;
  }

  /** What is on top of the stack when a block ends whose beginning are the loose nodes: as many nodes, or one less. */
  lemma {:induction false} JoinedInlines(w0: Walk, w: Walk, ns: seq<Node>, segRef: string, kids: seq<Node>)
      returns (top: seq<Node>)
    requires Pending(w0, w, ns) && Inlines(kids, false)
    ensures var w1 := WalkNodes(kids, w.(curRef := Some(segRef)), PLAIN);
      Adds(Since(w0, w), w1, PLAIN, top) && w1.curRef.Some?
    ensures |kids| == 1 && |top| == 1 && kids[0].Elem? ==> top[0].Elem?
  {
    hide Run, Aligned, WalkNode, AddTop, UnmarkAll;
    var w2 := w.(curRef := Some(segRef));
    var m := Aligned(Run(w0.ops), []);
    if kids == [] || CanFollow(w2, kids[0], PLAIN) {
      InlinesRoundTrip(kids, w2, PLAIN);
      AddedTwice(m, UnmarkAll(ns), UnmarkAll(kids));
      top := UnmarkAll(ns) + UnmarkAll(kids);
      UnmarkedLength(ns);
      UnmarkedLength(kids);
      assert |top| == |ns| + |kids|;
    } else {
      var z := RunTogether(w0, w, ns, segRef, kids[0]);
      var w3, first := WalkNode(kids[0], w2, PLAIN), UnmarkAll(ns[..|ns| - 1]) + [z];
      if |kids| > 1 { NextCanFollow(w3, kids[0], kids[1], PLAIN); }
      InlinesRoundTrip(kids[1..], w3, PLAIN);
      AddedTwice(m, first, UnmarkAll(kids[1..]));
      top := first + UnmarkAll(kids[1..]);
      assert |top| == 1 ==> |first| == 1 && top[0] == z;
    }
  }

  /** A paragraph that begins with the loose nodes before it is one block. */
  lemma {:induction false} ParaJoined(n: Node, w0: Walk, w: Walk, ns: seq<Node>, segRef: string) returns (block: Node)
    requires Pending(w0, w, ns) && TopLevel(n) && n.name in {"para", "book"}
    ensures var w1 := WalkParaBody(n, w.(curRef := Some(segRef)));
      && AtBoundary(w1) && Run(w1.ops).table.None? && w1.implied == w.implied && w1.curChapter == w.curChapter
      && Settled(Run(w1.ops)) == Settled(Run(w0.ops)) + [block]
  {
    hide Run, UnmarkAll, WalkNodes, WalkNode, Aligned, Numbered, Settled;
    var w2 := w.(curRef := Some(segRef));
    var top := JoinedInlines(w0, w, ns, segRef, n.kids);
    var w1 := WalkNodes(n.kids, w2, PLAIN);
    block := Elem(n.name, n.attrs, top, false);
    BreakSince(w0, w);
    LineBreak(Since(w0, w), w1, ParaFmt(n), top);
    ParaRead(Run(w0.ops), top, n, ParaFmt(n));
    JoinedDone(w0, WalkParaBody(n, w2), n, block);
  }

  lemma BreakSince(w0: Walk, w: Walk)
    requires AtBoundary(w0)
    ensures AtBreak(Since(w0, w)) && AtBoundary(Since(w0, w))
  {
  }

  lemma JoinedDone(w0: Walk, w1: Walk, n: Node, block: Node)
    requires Idle(Run(w0.ops)) && n.Elem? && w1.ops != [] && Last(w1.ops).fmt == ParaFmt(n) && Run(w1.ops).Machine?
    requires Run(w1.ops) == Machine(Settled(Run(w0.ops)) + [block], [[]], [], None, Run(w1.ops).row)
    ensures AtBoundary(w1) && Run(w1.ops).table.None? && Settled(Run(w1.ops)) == Settled(Run(w0.ops)) + [block]
  {
    hide Run, HasMisplacedVerse;
  }

  /** Waiting nodes that asked for a line break stand before the paragraph; others become its beginning. */
  lemma {:induction false} ParaMeetsLoose(n: Node, s: BookWalk, w0: Walk, ns: seq<Node>) returns (block: Node)
    requires s.BookWalk? && Waits(w0, s.walk, ns) && TopLevel(n) && n.name in {"para", "book"}
    ensures var s1 := WalkPara(n, s);
      && s1.BookWalk? && s1 == s.(walk := s1.walk, nextIds := s1.nextIds)
      && AtBoundary(s1.walk) && Run(s1.walk.ops).table.None?
      && !s1.walk.implied && s1.walk.curChapter == s.walk.curChapter
      && Settled(Run(s1.walk.ops))
         == if ns != [] && !s.walk.implied then Settled(Run(w0.ops)) + [block]
            else if Swaps(w0, s.walk, ns) then Swapped(Run(w0.ops), UnmarkAll(ns)) + [Unmark(n)]
            else Settled(Run(w0.ops)) + UnmarkAll(ns) + [Unmark(n)]
  {
    hide Run, WalkParaBody, UnmarkAll, Settled, ImpliedEnded, Pending;
    block := Unmark(n);
    var ended := s.(walk := ImpliedEnded(s.walk));
    ImpliedFields(s.walk);
    if ns != [] && !s.walk.implied {
      NotImplied(s.walk);
      var key := ParaKey(Attr(n, "style"), s.walk.curRef).value;
      block := ParaJoined(n, w0, s.walk, ns, ParaRef(key.1, NextId(s.nextIds, key.0)));
    } else {
      if ns != [] {
        ImpliedDone(w0, s.walk, ns);
      } else {
        NothingUnmarked();
        if s.walk.implied { EmptyBreak(s.walk); } else { NotImplied(s.walk); }
        assert Settled(Run(w0.ops)) + [] == Settled(Run(w0.ops));
      }
      ParaRoundTrip(n, ended);
    }
  }

  lemma NotImplied(w: Walk)
    requires !w.implied
    ensures ImpliedEnded(w) == w
  {
  }

  // ----- a cell that begins with what waits

  /** The first cell of a table takes the loose nodes before it; an element that is not a `cell` cannot. */
  lemma {:induction false} CellJoined(cell: Node, w0: Walk, w: Walk, ns: seq<Node>, t: nat, table: Attrs, invalid: bool)
      returns (elem: Node)
    requires Pending(w0, w, ns) && Cell(cell) && t == w.tableIndex + 1 && Lookup(table, "id") == Some(TableId(t))
    ensures var w1 := WalkCell(cell, w.(tableIndex := t), t, table, 1, 1, invalid);
      && w1 == w.(tableIndex := t, ops := w1.ops, curRef := w1.curRef, nextGuid := w1.nextGuid,
                  lastVerse := w1.lastVerse)
      && (Doomed(w1.ops) || AtCell(w1, InTable(Settled(Run(w0.ops)), table, t, 1, [], [elem])))
  {
    hide Run, UnmarkAll, WalkNodes, WalkNode, Aligned, Numbered, Settled, Doomed;
    var wt := w.(tableIndex := t);
    var segRef := CellRef(t, 1, 1);
    var kids := if cell.name == "cell" then cell.kids else [cell];
    TableStarted(w0, w, ns, t, table);
    var b, base := w0.(tableIndex := t), Settled(Run(w0.ops));
    CellKids(cell, wt.(curRef := Some(segRef)));
    var top := JoinedInlines(b, wt, ns, segRef, kids);
    var w1 := WalkNodes(kids, wt.(curRef := Some(segRef)), PLAIN);
    elem := if cell.name == "cell" then Container("cell", cell.attrs, top) else if |top| == 1 then top[0] else cell;
    BreakSince(b, wt);
    if cell.name == "cell" || |top| == 1 {
      assert |top| == 1 ==> top == [top[0]];
      CellInsertedRoundTrip(cell, elem, Since(b, wt), w1, top, base, table, 1, invalid, [], []);
      assert [] + [elem] == [elem];
    } else {
      CellFaults(cell, Since(b, wt), w1, top, base, table, invalid);
    }
  }

  lemma TableStarted(w0: Walk, w: Walk, ns: seq<Node>, t: nat, table: Attrs)
    requires Pending(w0, w, ns) && t == w.tableIndex + 1 && Lookup(table, "id") == Some(TableId(t))
    ensures Pending(w0.(tableIndex := t), w.(tableIndex := t), ns)
    ensures BeforeRow(Run(w0.ops), Settled(Run(w0.ops)), table, t, 1, [])
  {
    hide Run, Aligned, Settled, EndsWith, LastOpOf, UnmarkAll;
    LastOpKept(w, w.(tableIndex := t), ns[|ns| - 1]);
    NumberedLater(w0, t);
  }

  lemma NumberedLater(w: Walk, t: nat)
    requires AtBoundary(w) && w.tableIndex < t
    ensures AtBoundary(w.(tableIndex := t)) && Numbered(Run(w.ops), t - 1)
  {
    hide Run;
  }

  lemma CellKids(cell: Node, w: Walk)
    requires Cell(cell)
    ensures var kids := if cell.name == "cell" then cell.kids else [cell];
      Inlines(kids, false) && WalkNodes(kids, w, PLAIN) == WalkNode(cell, w, PLAIN)
  {
    if cell.name != "cell" {
      assert [cell][1..] == [];
      assert WalkNodes([cell], w, PLAIN) == WalkNodes([], WalkNode(cell, w, PLAIN), PLAIN);
    }
  }

  /** More than one node where a single element should stand: reading throws. */
  lemma CellFaults(cell: Node, w: Walk, w1: Walk, top: seq<Node>, base: seq<Node>, table: Attrs, invalid: bool)
    requires AtBoundary(w) && cell.Elem? && cell.name != "cell" && |top| != 1
    requires Adds(w, w1, PLAIN, top) && w1.curRef.Some? && w.tableIndex > 0
    requires BeforeRow(Run(w.ops), base, table, w.tableIndex, 1, [])
    ensures Doomed(CellInserted(cell, w1, w.tableIndex, table, 1, invalid).ops)
  {
    hide Run, BeforeRow, SegmentEnded, Adds, Numbered, TextRead, AddTop;
    var fmt := CellFmt(cell, w.tableIndex, table, 1, invalid);
    LineBreak(w, w1, fmt, top);
    CellTextRead(AddTop(Run(w.ops), top), fmt);
    TopAdded(Run(w.ops), top, base, table, w.tableIndex, 1, []);
  }

  /** A table whose first cell begins with the loose nodes before it is one block, or cannot be read. */
  lemma {:induction false} TableJoined(n: Node, w0: Walk, w: Walk, ns: seq<Node>) returns (block: Node)
    requires Pending(w0, w, ns) && TopLevel(n) && n.name == "table"
    ensures var w1 := WalkTable(n, w);
      Doomed(w1.ops)
      || (AtBoundary(w1) && Run(w1.ops).table.Some? && Settled(Run(w1.ops)) == Settled(Run(w0.ops)) + [block])
  {
    hide Run, WalkCell, WalkCells, WalkRows, Settled, UnmarkAll, Doomed, Inline, Inlines;
    var t := w.tableIndex + 1;
    var table, row := n.attrs["id" := TableId(t)], n.kids[0];
    var wt, base, inv := w.(tableIndex := t), Settled(Run(w0.ops)), n.invalid || row.invalid;
    var elem := CellJoined(row.kids[0], w0, w, ns, t, table, inv);
    var w1 := WalkCell(row.kids[0], wt, t, table, 1, 1, inv);
    var w2 := WalkCells(row.kids[1..], w1, t, table, 1, 2, inv);
    FirstRowUnfolded(n.kids, wt, table, n.invalid);
    if Doomed(w1.ops) {
      CellsInsert(row.kids[1..], w1, t, table, 1, 2, inv);
      DoomedInserts(w1.ops, w2.ops);
      RowsInsert(n.kids[1..], w2, table, 2, n.invalid);
      DoomedInserts(w2.ops, WalkRows(n.kids[1..], w2, table, 2, n.invalid).ops);
      block := n;
    } else {
      CellsRoundTrip(row.kids[1..], w1, base, table, 1, 2, inv, [], [elem]);
      var cells := [elem] + UnmarkAll(row.kids[1..]);
      block := RowsAfterFirst(n, w2, base, table, cells);
    }
  }

  lemma FirstRowUnfolded(rows: seq<Node>, w: Walk, table: Attrs, invalid: bool)
    requires rows != [] && IsElement(rows[0], "row") && rows[0].kids != [] && rows[0].kids[0].Elem?
    ensures var inv := invalid || rows[0].invalid;
      var w1 := WalkCell(rows[0].kids[0], w, w.tableIndex, table, 1, 1, inv);
      var w2 := WalkCells(rows[0].kids[1..], w1, w.tableIndex, table, 1, 2, inv);
      WalkRows(rows, w, table, 1, invalid) == WalkRows(rows[1..], w2, table, 2, invalid)
  {
    hide WalkCell;
  }

  /** The rows after the first one. */
  lemma RowsAfterFirst(n: Node, w: Walk, base: seq<Node>, table: Attrs, cells: seq<Node>) returns (block: Node)
    requires TopLevel(n) && n.name == "table" && w.tableIndex > 0 && Lookup(table, "id") == Some(TableId(w.tableIndex))
    requires AtCell(w, InTable(base, table, w.tableIndex, 1, [], cells))
    ensures var w1 := WalkRows(n.kids[1..], w, table, 2, n.invalid).(curRef := None);
      AtBoundary(w1) && Run(w1.ops).table.Some? && Settled(Run(w1.ops)) == base + [block]
  {
    hide Run, WalkCells, UnmarkAll;
    RowAfterRow(base, table, w.tableIndex, 1, [], cells);
    assert [] + [RowElem(cells)] == [RowElem(cells)];
    if |n.kids| == 1 {
      block := Container("table", table, [RowElem(cells)]);
    } else {
      RowsRoundTrip(n.kids[1..], w, base, table, 2, n.invalid, [RowElem(cells)]);
      block := Container("table", table, [RowElem(cells)] + UnmarkAll(n.kids[1..]));
    }
  }

  // ----- chapters

  /** The op of a chapter. */
  function ChapterOp(n: Node): Op
    requires n.Elem?
  {
    Op(Embed("chapter", n.attrs, []), PLAIN.(invalidBlock := n.invalid))
  }

  /** The walk after the chapter element that opens a section, or ends the introduction. */
  function ChapterWalked(n: Node, w: Walk): Walk
    requires n.Elem?
  {
    w.(ops := Appended(w.ops, ChapterOp(n)), curRef := None, curChapter := Attr(n, "number"), lastVerse := 0)
  }

  lemma {:induction false} ChapterRoundTrip(w: Walk, n: Node)
    requires AtBreak(w) && TopLevel(n) && n.name == "chapter"
    ensures var w1 := ChapterWalked(n, w);
      && w1.ops == w.ops + [ChapterOp(n)] && Run(w1.ops) == ChapterRead(Run(w.ops), n.attrs)
      && AtBoundary(w1) && Run(w1.ops).table.None? && Settled(Run(w1.ops)) == Settled(Run(w.ops)) + [Unmark(n)]
  {
    hide Run, Settled;
    ChapterStep(w.ops, ChapterOp(n), n.attrs);
    ChapterRoundTripRead(Run(w.ops), n.attrs);
    AlignedSame(Run(w.ops));
    ChapterDone(w, ChapterWalked(n, w), n);
  }

  lemma ChapterStep(ops: seq<Op>, op: Op, attrs: Attrs)
    requires op.insert == Embed("chapter", attrs, []) && op.fmt.chars == []
    ensures Appended(ops, op) == ops + [op] && Run(ops + [op]) == ChapterRead(Aligned(Run(ops), []), attrs)
  {
    hide Aligned;
    Appending(ops, op);
  }

  lemma ChapterDone(w: Walk, w1: Walk, n: Node)
    requires Idle(Run(w.ops)) && w1.ops != [] && Last(w1.ops).insert.Embed? && Run(w1.ops).Machine?
    requires Run(w1.ops) == Machine(Settled(Run(w.ops)) + [Unmark(n)], [[]], [], None, Run(w1.ops).row)
    ensures AtBoundary(w1) && Run(w1.ops).table.None? && Settled(Run(w1.ops)) == Settled(Run(w.ops)) + [Unmark(n)]
  {
    hide Run;
  }

  /** A first chapter drops what waits behind an open table; otherwise the loose nodes wait on behind the chapter. */
  lemma {:induction false} ChapterMeetsLoose(n: Node, w0: Walk, w: Walk, ns: seq<Node>) returns (w2: Walk)
    requires Pending(w0, w, ns) && TopLevel(n) && n.name == "chapter"
    ensures var w1 := ChapterWalked(n, w);
      && w1.ops != [] && Last(w1.ops).insert.Embed?
      && Waits(w2, w1, if Run(w0.ops).table.Some? then [] else ns)
      && Run(w2.ops).table.None? && Settled(Run(w2.ops)) == Settled(Run(w0.ops)) + [Unmark(n)]
  {
    hide Run, Settled, UnmarkAll, Aligned, AddTop, ChapterRead;
    var w1, m := ChapterWalked(n, w), Run(w0.ops);
    AlignedSame(m);
    ChapterStep(w.ops, ChapterOp(n), n.attrs);
    ChapterRoundTrip(w0, n);
    ChapterRoundTripRead(m, n.attrs);
    ChapterOverLoose(m, UnmarkAll(ns), n.attrs);
    if m.table.Some? {
      ChapterDone(w0, w1, n);
      w2 := w1;
    } else {
      w2 := w1.(ops := w0.ops + [ChapterOp(n)]);
      StillWaiting(n, w0, w1, w2, ns);
    }
  }

  lemma ChapterOverLoose(m: Machine, nodes: seq<Node>, attrs: Attrs)
    requires Idle(m)
    ensures ChapterRead(AddTop(m, nodes), attrs)
      == if m.table.Some? then ChapterRead(m, attrs) else AddTop(ChapterRead(m, attrs), nodes)
  {
    if m.table.Some? { assert RowEnded(AddTop(m, nodes)).0 == RowEnded(m).0; }
  }

  lemma StillWaiting(n: Node, w0: Walk, w1: Walk, w2: Walk, ns: seq<Node>)
    requires ns != [] && n.Elem? && AtBoundary(ChapterWalked(n, w0)) && ChapterWalked(n, w0).ops == w2.ops
    requires w2 == w1.(ops := w2.ops) && w1.curRef.None? && w1.ops != [] && Last(w1.ops) == ChapterOp(n)
    requires Run(w2.ops).Machine? && Run(w2.ops).chars == [] && Run(w2.ops).stack != []
    requires Run(w1.ops) == AddTop(Run(w2.ops), UnmarkAll(ns)) && w2.tableIndex >= w0.tableIndex
    ensures Pending(w2, w1, ns)
  {
    hide Run, UnmarkAll;
    AlignedSame(Run(w2.ops));
    AlignedSame(Run(w1.ops));
  }
}
