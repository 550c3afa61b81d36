/** Which ops a delta marks as invalid, for validation results that are arbitrary. */
module ValidityMarks {
  import opened Wrappers
  import opened UsxNodes
  import opened RichText
  import opened ChapterWalk
  import opened VersePlaces
  import opened Grammar

  // ----- marks in a delta

  /** Some op is marked as part of an invalid inline element. */
  predicate Marked(ops: seq<Op>) {
    exists i :: 0 <= i < |ops| && ops[i].fmt.invalidInline
  }

  /** The op ends a block, or is a chapter. */
  predicate EndsBlock(op: Op) {
    op.fmt.block.Some? || op.fmt.table.Some? || (op.insert.Embed? && op.insert.name == "chapter")
  }

  /** The marks on the ends of blocks, in order. */
  function BlockMarks(ops: seq<Op>): seq<bool> {
    if ops == [] then []
    else BlockMarks(ops[..|ops| - 1]) + if EndsBlock(Last(ops)) then [Last(ops).fmt.invalidBlock] else []
  }

  // ----- marks read off the nodes

  /** An op for this node is marked, if `around` says whether it stands in an invalid character style. */
  predicate Shows(n: Node, around: bool) {
    match n
    case Text(_) => around
    case Elem(name, _, kids, invalid) =>
      if name == "verse" then invalid
      else if name == "char" && kids != [] then SomeShows(kids, around || invalid)
      else around || invalid
  }

  predicate SomeShows(ns: seq<Node>, around: bool) {
    ns != [] && (Shows(ns[0], around) || SomeShows(ns[1..], around))
  }

  /** A cell is marked if it is invalid, or its row, or its table. */
  function RowMarks(cells: seq<Node>, invalid: bool): seq<bool> {
    if cells == [] || cells[0].Text? then []
    else [invalid || cells[0].invalid] + RowMarks(cells[1..], invalid)
  }

  function TableMarks(rows: seq<Node>, invalid: bool): seq<bool> {
    if rows == [] || rows[0].Text? then []
    else RowMarks(rows[0].kids, invalid || rows[0].invalid) + TableMarks(rows[1..], invalid)
  }

  predicate RowShows(cells: seq<Node>) {
    cells != []
    && ((if IsElement(cells[0], "cell") then SomeShows(cells[0].kids, false) else Shows(cells[0], false))
        || RowShows(cells[1..]))
  }

  predicate TableShows(rows: seq<Node>) {
    rows != [] && ((rows[0].Elem? && RowShows(rows[0].kids)) || TableShows(rows[1..]))
  }

  /** A paragraph is marked if it is invalid, or if it holds a verse although it may not. */
  function TopMarks(n: Node): seq<bool> {
    if !IsBlock(n) then []
    else if n.name == "chapter" then [n.invalid]
    else if n.name == "table" then TableMarks(n.kids, n.invalid)
    else [n.invalid || MisplacesVerse(n)]
  }

  predicate TopShows(n: Node) {
    if !IsBlock(n) then Shows(n, false)
    else if n.name == "chapter" then false
    else if n.name == "table" then TableShows(n.kids)
    else SomeShows(n.kids, false)
  }

  // ----- one op more

  lemma AppendedMarks(ops: seq<Op>, op: Op)
    requires op.insert != Str("") && (EndsBlock(op) ==> !(op.insert.Str? && Merges(ops, op.fmt)))
    ensures Marked(Appended(ops, op)) <==> Marked(ops) || op.fmt.invalidInline
    ensures BlockMarks(Appended(ops, op)) == BlockMarks(ops) + if EndsBlock(op) then [op.fmt.invalidBlock] else []
  {
    var r := Appended(ops, op);
    assert Last(r).fmt == op.fmt;
    if op.insert.Str? && Merges(ops, op.fmt) {
      assert r[..|r| - 1] == ops[..|ops| - 1];
      assert forall i :: 0 <= i < |ops| ==> ops[i].fmt == r[i].fmt;
    } else {
      assert r[..|r| - 1] == ops;
      assert forall i :: 0 <= i < |ops| ==> ops[i] == r[i];
    }
  }

  lemma EndedMarks(ops: seq<Op>, segRef: Option<string>)
    ensures Marked(SegmentEnded(ops, segRef)) <==> Marked(ops)
    ensures BlockMarks(SegmentEnded(ops, segRef)) == BlockMarks(ops)
  {
    hide Marked, BlockMarks;
    AppendedMarks(ops, Op(Blank, PLAIN.(segment := segRef)));
  }

  /** The end of a block that has a reference. */
  lemma BlockEnded(ops: seq<Op>, segRef: Option<string>, op: Op)
    requires segRef.Some? && op.insert == Str("\n") && (op.fmt.block.Some? || op.fmt.table.Some?)
    ensures var r := Appended(SegmentEnded(ops, segRef), op);
      && (Marked(r) <==> Marked(ops) || op.fmt.invalidInline)
      && BlockMarks(r) == BlockMarks(ops) + [op.fmt.invalidBlock]
  {
    hide Marked, BlockMarks;
    EndedMarks(ops, segRef);
    AppendedMarks(SegmentEnded(ops, segRef), op);
  }

  // ----- every node

  /** From `w` to `w1` these ends of blocks came, and a mark on an inline op if `shown`. */
  ghost predicate Adds(w: Walk, w1: Walk, shown: bool, marks: seq<bool>) {
    && (Marked(w1.ops) <==> Marked(w.ops) || shown)
    && BlockMarks(w1.ops) == BlockMarks(w.ops) + marks
    && (w.curRef.Some? ==> w1.curRef.Some?)
  }

  lemma {:induction false} NodeAdds(n: Node, w: Walk, f: Fmt)
    requires Inline(n, f.chars != []) && f.block.None? && f.table.None?
    ensures Adds(w, WalkNode(n, w, f), Shows(n, f.invalidInline), [])
    decreases n, 1
  {
    hide Marked, BlockMarks, SegmentEnded, Appended, WalkNodes, SomeShows, VerseInserted, WalkChar, WalkEmbed;
    assert BlockMarks(w.ops) + [] == BlockMarks(w.ops);
    match n
    case Text(v) => AppendedMarks(w.ops, Op(Str(v), WithSegment(f, w.curRef)));
    case Elem(name, attrs, kids, invalid) =>
      if name == "verse" {
        VerseAdds(n, w);
      } else if name == "ref" {
        RefAdds(n, w, f);
      } else if name == "char" {
        CharAdds(n, w, f);
      } else {
        EmbedAdds(n, w, f);
      }
  }

  lemma VerseAdds(n: Node, w: Walk)
    requires IsElement(n, "verse")
    ensures Adds(w, VerseInserted(n.attrs, n.invalid, w), n.invalid, [])
  {
    hide Marked, BlockMarks, SegmentEnded, Appended, VerseSeen;
    EndedMarks(w.ops, w.curRef);
    AppendedMarks(SegmentEnded(w.ops, w.curRef), Op(Embed("verse", n.attrs, []), InlineInvalid(PLAIN, n.invalid)));
  }

  lemma RefAdds(n: Node, w: Walk, f: Fmt)
    requires IsElement(n, "ref") && Inline(n, f.chars != []) && f.block.None? && f.table.None?
    ensures Adds(w, WalkNode(n, w, f), f.invalidInline || n.invalid, [])
  {
    hide Marked, BlockMarks, Appended;
    assert TextOf(n.kids) == n.kids[0].value + TextOf(n.kids[1..]) == n.kids[0].value;
    var g := InlineInvalid(f.(ref := Some(n.attrs)), n.invalid);
    AppendedMarks(w.ops, Op(Str(TextOf(n.kids)), WithSegment(g, w.curRef)));
  }

  lemma EmbedAdds(n: Node, w: Walk, f: Fmt)
    requires n.Elem? && n.name != "chapter" && f.block.None? && f.table.None?
    ensures Adds(w, WalkEmbed(n, w, f), f.invalidInline || n.invalid, [])
  {
    hide Marked, BlockMarks, Appended, WalkNodes;
    var inner := WalkNodes(n.kids, FreshState([], w.nextGuid), PLAIN);
    AppendedMarks(w.ops, Op(Embed(n.name, n.attrs, inner.ops), WithSegment(InlineInvalid(f, n.invalid), w.curRef)));
  }

  lemma {:induction false} CharAdds(n: Node, w: Walk, f: Fmt)
    requires IsElement(n, "char") && Inline(n, f.chars != []) && f.block.None? && f.table.None?
    ensures Adds(w, WalkChar(n, w, f), Shows(n, f.invalidInline), [])
    decreases n, 0
  {
    hide Marked, BlockMarks, Appended, WalkNodes;
    var g := CharFmt(n.attrs, n.invalid, w.nextGuid, f);
    if n.kids == [] {
      AppendedMarks(w.ops, Op(Empty, g.(segment := w.curRef)));
    } else {
      NodesAdd(n.kids, w.(nextGuid := w.nextGuid + 1), g);
    }
  }

  lemma {:induction false} NodesAdd(ns: seq<Node>, w: Walk, f: Fmt)
    requires Inlines(ns, f.chars != []) && f.block.None? && f.table.None?
    ensures Adds(w, WalkNodes(ns, w, f), SomeShows(ns, f.invalidInline), [])
    decreases ns, 0
  {
    hide Marked, BlockMarks, WalkNode, Inline, Shows;
    assert BlockMarks(w.ops) + [] == BlockMarks(w.ops);
    if ns != [] {
      NodeAdds(ns[0], w, f);
      NodesAdd(ns[1..], WalkNode(ns[0], w, f), f);
    }
  }

  lemma {:induction false} CellAdds(cell: Node, w: Walk, t: nat, table: Attrs, r: nat, c: nat, invalid: bool)
    requires Cell(cell)
    ensures Adds(w, WalkCell(cell, w, t, table, r, c, invalid),
      if cell.name == "cell" then SomeShows(cell.kids, false) else Shows(cell, false), [invalid || cell.invalid])
  {
    hide Marked, BlockMarks, WalkNodes, Appended, SegmentEnded, Shows, SomeShows, Inline, Inlines;
    var w0 := w.(curRef := Some(CellRef(w.tableIndex, r, c)));
    var inner := WalkNode(cell, w0, PLAIN);
    if cell.name == "cell" {
      NodesAdd(cell.kids, w0, PLAIN);
    } else {
      NodeAdds(cell, w0, PLAIN);
    }
    BlockEnded(inner.ops, inner.curRef, Op(Str("\n"), CellFmt(cell, t, table, r, invalid)));
  }

  lemma {:induction false} CellsAdd(cells: seq<Node>, w: Walk, t: nat, table: Attrs, r: nat, c: nat, invalid: bool)
    requires Cells(cells)
    ensures Adds(w, WalkCells(cells, w, t, table, r, c, invalid), RowShows(cells), RowMarks(cells, invalid))
    decreases cells
  {
    hide Marked, BlockMarks, WalkCell, Shows, SomeShows, Inline, Inlines;
    if cells == [] {
      assert BlockMarks(w.ops) + [] == BlockMarks(w.ops);
    } else {
      var w1 := WalkCell(cells[0], w, t, table, r, c, invalid);
      CellAdds(cells[0], w, t, table, r, c, invalid);
      CellsAdd(cells[1..], w1, t, table, r, c + 1, invalid);
      AppendThree(BlockMarks(w.ops), [invalid || cells[0].invalid], RowMarks(cells[1..], invalid));
    }
  }

  lemma AppendThree<T>(a: seq<T>, b: seq<T>, c: seq<T>)
    ensures a + b + c == a + (b + c)
  {
  }

  lemma {:induction false} RowsAdd(rows: seq<Node>, w: Walk, table: Attrs, r: nat, invalid: bool)
    requires Rows(rows)
    ensures Adds(w, WalkRows(rows, w, table, r, invalid), TableShows(rows), TableMarks(rows, invalid))
    decreases rows
  {
    hide Marked, BlockMarks, WalkCells, RowShows, RowMarks, Cells;
    if rows == [] {
      assert BlockMarks(w.ops) + [] == BlockMarks(w.ops);
    } else {
      var inv := invalid || rows[0].invalid;
      var w1 := WalkCells(rows[0].kids, w, w.tableIndex, table, r, 1, inv);
      CellsAdd(rows[0].kids, w, w.tableIndex, table, r, 1, inv);
      RowsAdd(rows[1..], w1, table, r + 1, invalid);
      AppendThree(BlockMarks(w.ops), RowMarks(rows[0].kids, inv), TableMarks(rows[1..], invalid));
    }
  }

  lemma ImpliedEndedMarks(w: Walk)
    ensures Marked(ImpliedEnded(w).ops) <==> Marked(w.ops)
    ensures BlockMarks(ImpliedEnded(w).ops) == BlockMarks(w.ops)
  {
    hide Marked, BlockMarks, SegmentEnded, Appended;
    if w.implied {
      EndedMarks(w.ops, w.curRef);
      AppendedMarks(SegmentEnded(w.ops, w.curRef), Op(Str("\n"), PLAIN));
    }
  }

  lemma ParaAdds(n: Node, s: BookWalk)
    requires s.BookWalk? && TopLevel(n) && n.name in {"para", "book"}
    ensures WalkPara(n, s).BookWalk?
    ensures var ops := WalkPara(n, s).walk.ops;
      && (Marked(ops) <==> Marked(s.walk.ops) || SomeShows(n.kids, false))
      && BlockMarks(ops) == BlockMarks(s.walk.ops) + [n.invalid || MisplacesVerse(n)]
  {
    hide Marked, BlockMarks, ImpliedEnded, WalkNodes, Appended, SegmentEnded, SomeShows, Inlines;
    hide HasMisplacedVerse, MisplacesVerse;
    MisplacedVerses(n);
    ImpliedEndedMarks(s.walk);
    var w := ImpliedEnded(s.walk);
    var key := ParaKey(Attr(n, "style"), w.curRef).value;
    var w0 := w.(curRef := Some(ParaRef(key.1, NextId(s.nextIds, key.0))));
    var w1 := WalkNodes(n.kids, w0, PLAIN);
    NodesAdd(n.kids, w0, PLAIN);
    BlockEnded(w1.ops, w1.curRef, Op(Str("\n"), ParaFmt(n)));
  }

  /** The ops that a delta had before a node: none if the node is a chapter that begins the next one. */
  function OpsBefore(n: Node, s: BookWalk): seq<Op>
    requires s.BookWalk?
  {
    if IsElement(n, "chapter") && s.walk.curChapter.Some? then [] else s.walk.ops
  }

  /**
   * One top-level node more marks the ends of blocks exactly as the node says, and some inline op exactly if an invalid
   * inline element shows there.
   */
  lemma {:induction false} ChildMarks(child: Child, s: BookWalk)
    requires s.BookWalk? && (if IsBlock(child.node) then TopLevel(child.node) else Loose(child.node))
    ensures WalkChild(child, s).BookWalk?
    ensures var ops := WalkChild(child, s).walk.ops;
      && BlockMarks(ops) == BlockMarks(OpsBefore(child.node, s)) + TopMarks(child.node)
      && (Marked(ops) <==> Marked(OpsBefore(child.node, s)) || TopShows(child.node))
  {
    hide Marked, BlockMarks, WalkNode, WalkRows, WalkPara, Appended, Shows, SomeShows, TableShows, TableMarks;
    hide MisplacesVerse, Inline, Inlines, Rows;
    var n := child.node;
    if !IsBlock(n) {
      NodeAdds(n, s.walk, PLAIN);
    } else if n.name == "chapter" {
      AppendedMarks(OpsBefore(n, s), Op(Embed("chapter", n.attrs, []), PLAIN.(invalidBlock := n.invalid)));
    } else if n.name == "table" {
      TableAdds(n, s.walk);
    } else {
      ParaAdds(n, if n.name == "book" then s.(bookIsValid := child.isValid) else s);
    }
  }

  lemma TableAdds(n: Node, w: Walk)
    requires TopLevel(n) && n.name == "table"
    ensures var ops := WalkNode(n, w, PLAIN).ops;
      && BlockMarks(ops) == BlockMarks(w.ops) + TableMarks(n.kids, n.invalid)
      && (Marked(ops) <==> Marked(w.ops) || TableShows(n.kids))
  {
    hide Marked, BlockMarks, WalkRows, TableShows, TableMarks, Rows;
    var t := w.tableIndex + 1;
    RowsAdd(n.kids, w.(tableIndex := t), n.attrs["id" := TableId(t)], 1, n.invalid);
    assert WalkNode(n, w, PLAIN) == WalkTable(n, w);
  }
}
