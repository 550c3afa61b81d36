/**
 * Reading back what the walk emits for paragraphs, tables and chapters. Between two blocks the reader's stack is idle,
 * or holds the rows and cells of a table that may still grow; the identifiers of tables and rows tell the reader when
 * the next cell belongs to another row or table. Whatever was open before a block, the block is read as one more node
 * after the earlier ones.
 */
module BlockRoundTrip {
  import opened Wrappers
  import opened Decimal
  import opened UsxNodes
  import opened RichText
  import opened ChapterWalk
  import opened DeltaReading
  import opened Grammar
  import opened InlineRoundTrip

  lemma RowIdInjective(t: nat, r: nat, t1: nat, r1: nat)
    requires RowId(t, r) == RowId(t1, r1)
    ensures t == t1 && r == r1
  {
    TwoPartsUnique("row_", Render(t), Render(r), Render(t1), Render(r1));
    RenderInjective(t, t1);
    RenderInjective(r, r1);
  }

  lemma TwoPartsUnique(p: string, a: string, b: string, c: string, d: string)
    requires p + a + "_" + b == p + c + "_" + d && '_' !in a && '_' !in c
    ensures a == c && b == d
  {
    assert p + a + "_" + b == p + (a + ['_'] + b) && p + c + "_" + d == p + (c + ['_'] + d);
    SamePrefix(p, a + ['_'] + b, c + ['_'] + d);
    SplitUnique(a, b, c, d, '_');
  }

  lemma TableIdInjective(t: nat, t1: nat)
    requires TableId(t) == TableId(t1)
    ensures t == t1
  {
    SamePrefix("table_", Render(t), Render(t1));
    RenderInjective(t, t1);
  }

  // ----- between blocks

  function RowAttrs(t: nat, r: nat): Attrs {
    map["id" := RowId(t, r)]
  }

  /** The open table and row were numbered by the walk. */
  ghost predicate Numbered(m: Machine, upTo: nat)
    requires m.Machine?
  {
    m.table.Some? ==>
      m.row.Some?
      && exists t: nat, r: nat ::
           t <= upTo && m.row.value == RowAttrs(t, r)
           && Lookup(m.table.value, "id") == Some(TableId(t))
  }

  /** No inline content is waiting for its block. */
  predicate Idle(m: Machine) {
    m.Machine? && m.chars == []
    && (if m.table.None? then m.stack == [[]] else |m.stack| == 3 && m.stack[2] == [])
  }

  /** Between two blocks, the first of which may be an implied paragraph. */
  ghost predicate AtBreak(w: Walk) {
    Ready(w) && Idle(Run(w.ops)) && Numbered(Run(w.ops), w.tableIndex)
    && (w.ops != [] && Last(w.ops).insert.Str? ==>
          Last(w.ops).fmt.block.Some? || Last(w.ops).fmt.table.Some? || Last(w.ops).fmt == PLAIN)
  }

  ghost predicate AtBoundary(w: Walk) {
    AtBreak(w)
    && (w.ops != [] && Last(w.ops).insert.Str? ==> Last(w.ops).fmt.block.Some? || Last(w.ops).fmt.table.Some?)
  }

  /** The blocks read so far, including a table that may still grow. */
  function Settled(m: Machine): seq<Node>
    requires Idle(m)
  {
    if m.table.None? then m.content
    else
      var row := Container("row", map["style" := "tr"], m.stack[1]);
      m.content + [Container("table", m.table.value, m.stack[0] + [row])]
  }

  lemma BoundaryCanFollow(w: Walk, n: Node)
    requires AtBreak(w) && (AtBoundary(w) || w.curRef.Some?)
    ensures CanFollow(w, n, PLAIN)
  {
  }

  lemma SegmentEndedBreaks(ops: seq<Op>, segRef: Option<string>)
    requires segRef.Some?
    ensures var r := SegmentEnded(ops, segRef);
            r != [] && (Last(r).insert.Str? ==> Last(r).fmt.block.None? && Last(r).fmt.table.None?)
  {
  }

  lemma TextStep(ops: seq<Op>, op: Op)
    requires op.insert.Str?
    ensures Run(ops + [op]) == TextRead(Aligned(Run(ops), op.fmt.chars), op.insert.text, op.fmt)
  {
    assert (ops + [op])[..|ops|] == ops;
  }

  /** After a segment has ended, a line break with block attributes is an op of its own. */
  lemma LineBreak(w: Walk, w1: Walk, fmt: Fmt, nodes: seq<Node>)
    requires AtBreak(w) && Adds(w, w1, PLAIN, nodes) && w1.curRef.Some?
    requires fmt.chars == [] && (fmt.block.Some? || fmt.table.Some?)
    ensures var ended := SegmentEnded(w1.ops, w1.curRef);
            var ops := Appended(ended, Op(Str("\n"), fmt));
            ops == ended + [Op(Str("\n"), fmt)]
            && Run(ops) == TextRead(AddTop(Run(w.ops), nodes), "\n", fmt)
  {
    hide Run, TextRead, Aligned, SegmentEnded, Numbered, AddTop, AllIssued, Sound;
    var ended := SegmentEnded(w1.ops, w1.curRef);
    SegmentEndedReady(w1);
    SegmentEndedBreaks(w1.ops, w1.curRef);
    AlignedSame(Run(w.ops));
    TextStep(ended, Op(Str("\n"), fmt));
  }

  // ----- paragraphs

  lemma ParaRead(m: Machine, kids: seq<Node>, n: Node, fmt: Fmt)
    requires Idle(m) && n.Elem? && PlainAttrs(n.attrs)
    requires fmt == PLAIN.(block := Some(Block(n.name, n.attrs)), invalidBlock := fmt.invalidBlock)
    ensures TextRead(AddTop(m, kids), "\n", fmt)
         == Machine(Settled(m) + [Elem(n.name, n.attrs, kids, false)], [[]], [], None,
                    if m.table.Some? then None else m.row)
  {
    var a := AddTop(m, kids);
    assert [] + kids == kids;
    var m1 := TableTracked(a, "\n", fmt);
    if m.table.Some? {
      assert a.stack == [m.stack[0], m.stack[1], kids];
      assert RowEnded(a).1 == Some(kids);
      assert m1.stack == [kids];
    } else {
      assert a.stack == [kids];
    }
    assert Restored(n.attrs) == n.attrs;
    assert Repeated(Elem(n.name, n.attrs, kids, false), 1) == [Elem(n.name, n.attrs, kids, false)];
    assert BlockRead(m1, fmt.block.value, 1).stack == [[]];
  }

  /** What one more block does to the delta of its section. */
  ghost predicate AddsBlock(w: Walk, w1: Walk, n: Node) {
    Idle(Run(w.ops)) && AtBoundary(w1) && w.nextGuid <= w1.nextGuid
    && w1.curChapter == w.curChapter && w1.implied == w.implied
    && Settled(Run(w1.ops)) == Settled(Run(w.ops)) + [Unmark(n)]
  }

  lemma ParaBodyRoundTrip(n: Node, w: Walk)
    requires AtBreak(w) && w.curRef.Some? && TopLevel(n) && n.name in {"para", "book"}
    ensures AddsBlock(w, WalkParaBody(n, w), n) && Run(WalkParaBody(n, w).ops).table.None?
  {
    hide Run, UnmarkAll, WalkNodes, WalkNode;
    if n.kids != [] {
      BoundaryCanFollow(w, n.kids[0]);
    }
    InlinesRoundTrip(n.kids, w, PLAIN);
    var w1 := WalkNodes(n.kids, w, PLAIN);
    LineBreak(w, w1, ParaFmt(n), UnmarkAll(n.kids));
    ParaRead(Run(w.ops), UnmarkAll(n.kids), n, ParaFmt(n));
    ParaDone(w, w1, WalkParaBody(n, w), n);
  }

  lemma ParaDone(w: Walk, w1: Walk, w2: Walk, n: Node)
    requires AtBreak(w) && n.Elem? && Adds(w, w1, PLAIN, UnmarkAll(n.kids))
    requires w2 == w1.(ops := w2.ops, curRef := w2.curRef, chapterIsValid := w2.chapterIsValid)
    requires w2.ops != [] && Last(w2.ops).fmt == ParaFmt(n)
    requires Run(w2.ops).Machine?
    requires Run(w2.ops) == Machine(Settled(Run(w.ops)) + [Unmark(n)], [[]], [], None, Run(w2.ops).row)
    ensures AddsBlock(w, w2, n) && Run(w2.ops).table.None?
  {
    hide Run, Aligned, AddTop, UnmarkAll, Container, HasMisplacedVerse;
  }

  lemma {:induction false} ParaRoundTrip(n: Node, s: BookWalk)
    requires s.BookWalk? && AtBreak(s.walk) && !s.walk.implied && TopLevel(n) && n.name in {"para", "book"}
    ensures var s1 := WalkPara(n, s);
            s1.BookWalk? && AddsBlock(s.walk, s1.walk, n) && Run(s1.walk.ops).table.None?
            && s1 == s.(walk := s1.walk, nextIds := s1.nextIds)
  {
    var key := ParaKey(Attr(n, "style"), s.walk.curRef).value;
    ParaBodyRoundTrip(n, s.walk.(curRef := Some(ParaRef(key.1, NextId(s.nextIds, key.0)))));
  }

  // ----- tables

  /** The reader after a cell of row `r` in table `t`: finished rows, the cells of this row, an empty cell. */
  function InTable(base: seq<Node>, table: Attrs, t: nat, r: nat, rows: seq<Node>, cells: seq<Node>): Machine {
    Machine(base, [rows, cells, []], [], Some(table), Some(RowAttrs(t, r)))
  }

  function RowElem(cells: seq<Node>): Node {
    Container("row", map["style" := "tr"], cells)
  }

  /** The next cell opens row `r` of table `t`: after other blocks, or after another row of the same table. */
  ghost predicate BeforeRow(m: Machine, base: seq<Node>, table: Attrs, t: nat, r: nat, rows: seq<Node>) {
    Idle(m) && t > 0 && Lookup(table, "id") == Some(TableId(t))
    && ((rows == [] && Settled(m) == base && Numbered(m, t - 1))
        || exists r0: nat, rows0, cells ::
             r0 < r && m == InTable(base, table, t, r0, rows0, cells) && rows == rows0 + [RowElem(cells)])
  }

  lemma FirstCellRead(m: Machine, base: seq<Node>, table: Attrs, t: nat, r: nat, rows: seq<Node>,
                      nodes: seq<Node>, cell: Option<Attrs>)
    requires BeforeRow(m, base, table, t, r, rows)
    requires cell.None? ==> |nodes| == 1 && nodes[0].Elem?
    ensures CellEnded(AddTop(m, nodes), table, Some(RowAttrs(t, r)), cell)
         == InTable(base, table, t, r, rows, [CellElem(nodes, cell)])
  {
    hide CellEnded, AddTop, BeforeRow, PaddedTo2, RowsClosed, Pop;
    TopAdded(m, nodes, base, table, t, r, rows);
    RowOpened(m, base, table, t, r, rows);
    CellPlaced(AddTop(m, nodes), base, table, RowAttrs(t, r), rows, cell);
  }

  lemma TopAdded(m: Machine, nodes: seq<Node>, base: seq<Node>, table: Attrs, t: nat, r: nat, rows: seq<Node>)
    requires BeforeRow(m, base, table, t, r, rows)
    ensures var a := AddTop(m, nodes); a.Machine? && a.stack != [] && Top(a) == nodes && Pop(a) == Pop(m)
  {
    hide RowAttrs, TableId, RowElem, Numbered, Settled;
    var a := AddTop(m, nodes);
    assert Top(a) == [] + nodes == nodes;
    assert Pop(a).stack == Pop(m).stack;
  }

  /** A cell goes into the open row, and an empty one is opened. */
  lemma CellPlaced(a: Machine, base: seq<Node>, table: Attrs, row: Attrs, rows: seq<Node>, cell: Option<Attrs>)
    requires a.Machine? && a.stack != []
    requires cell.None? ==> |Top(a)| == 1 && Top(a)[0].Elem?
    requires var q := PaddedTo2(RowsClosed(Pop(a), table, Some(row)));
             q.Machine? && q.content == base && q.stack == [rows, []] && q.chars == []
    ensures CellEnded(a, table, Some(row), cell)
         == Machine(base, [rows, [CellElem(Top(a), cell)], []], [], Some(table), Some(row))
  {
    hide PaddedTo2, RowsClosed, Pop;
    var q := PaddedTo2(RowsClosed(Pop(a), table, Some(row)));
    assert Top(q) + [CellElem(Top(a), cell)] == [CellElem(Top(a), cell)];
    assert AddTop(q, [CellElem(Top(a), cell)]).stack == [rows, [CellElem(Top(a), cell)]];
  }

  lemma RowOpened(m: Machine, base: seq<Node>, table: Attrs, t: nat, r: nat, rows: seq<Node>)
    requires BeforeRow(m, base, table, t, r, rows)
    ensures var q := PaddedTo2(RowsClosed(Pop(m), table, Some(RowAttrs(t, r))));
            q.Machine? && q.content == base && q.stack == [rows, []] && q.chars == []
  {
    if rows == [] && Settled(m) == base && Numbered(m, t - 1) {
      if m.table.None? {
        assert Pop(m).stack == [];
        Padded0(Pop(m));
      } else {
        var t0: nat, r0: nat :| t0 <= t - 1 && m.row.value == RowAttrs(t0, r0)
                                && Lookup(m.table.value, "id") == Some(TableId(t0));
        OtherTable(t0, r0, t, r);
        assert Pop(m).stack == [m.stack[0], m.stack[1]];
        Padded1(RowsClosed(Pop(m), table, Some(RowAttrs(t, r))), []);
      }
    } else {
      var r0: nat, rows0, cells :|
        r0 < r && m == InTable(base, table, t, r0, rows0, cells) && rows == rows0 + [RowElem(cells)];
      OtherRow(t, r0, r);
      assert Pop(m).stack == [rows0, cells];
      Padded1(RowsClosed(Pop(m), table, Some(RowAttrs(t, r))), rows);
    }
  }

  lemma Padded0(m: Machine)
    requires m.Machine? && m.stack == []
    ensures PaddedTo2(m) == m.(stack := [[], []])
  {
    assert Push(m).stack == [[]];
    Padded1(Push(m), []);
  }

  lemma Padded1(m: Machine, bottom: seq<Node>)
    requires m.Machine? && m.stack == [bottom]
    ensures PaddedTo2(m) == m.(stack := [bottom, []])
  {
    assert Push(m).stack == [bottom, []];
    assert PaddedTo2(m) == PaddedTo2(Push(m)) == Push(m);
  }

  function CellElem(nodes: seq<Node>, cell: Option<Attrs>): Node
    requires cell.None? ==> |nodes| == 1
  {
    if cell.Some? then Container("cell", cell.value, nodes) else nodes[0]
  }

  lemma OtherTable(t0: nat, r0: nat, t: nat, r: nat)
    requires t0 < t
    ensures TableId(t0) != TableId(t) && RowId(t0, r0) != RowId(t, r)
  {
    if TableId(t0) == TableId(t) {
      TableIdInjective(t0, t);
    }
    if RowId(t0, r0) == RowId(t, r) {
      RowIdInjective(t0, r0, t, r);
    }
  }

  lemma OtherRow(t: nat, r0: nat, r: nat)
    requires r0 < r
    ensures RowId(t, r0) != RowId(t, r)
  {
    if RowId(t, r0) == RowId(t, r) {
      RowIdInjective(t, r0, t, r);
    }
  }

  lemma NextCellRead(base: seq<Node>, table: Attrs, t: nat, r: nat, rows: seq<Node>, cells: seq<Node>,
                     nodes: seq<Node>, cell: Option<Attrs>)
    requires cell.None? ==> |nodes| == 1 && nodes[0].Elem?
    ensures CellEnded(AddTop(InTable(base, table, t, r, rows, cells), nodes), table, Some(RowAttrs(t, r)), cell)
         == InTable(base, table, t, r, rows, cells + [CellElem(nodes, cell)])
  {
    var a := AddTop(InTable(base, table, t, r, rows, cells), nodes);
    assert Top(a) == [] + nodes == nodes;
    var p := Pop(a);
    assert p.stack == [rows, cells];
    assert AddTop(p, [CellElem(nodes, cell)]).stack == [rows, cells + [CellElem(nodes, cell)]];
  }

  /** Between two cells of a table. */
  ghost predicate AtCell(w: Walk, m: Machine) {
    AtBoundary(w) && Run(w.ops) == m
  }

  /** One cell of row `r`, whether it is the first or not. */
  lemma {:induction false} CellRoundTrip(cell: Node, w: Walk, base: seq<Node>, table: Attrs, r: nat, c: nat,
                                         invalid: bool, rows: seq<Node>, done: seq<Node>)
    requires AtBoundary(w) && Cell(cell) && w.tableIndex > 0
    requires Lookup(table, "id") == Some(TableId(w.tableIndex))
    requires if done == [] then BeforeRow(Run(w.ops), base, table, w.tableIndex, r, rows)
             else Run(w.ops) == InTable(base, table, w.tableIndex, r, rows, done)
    ensures var w1 := WalkCell(cell, w, w.tableIndex, table, r, c, invalid);
            AtCell(w1, InTable(base, table, w.tableIndex, r, rows, done + [Unmark(cell)]))
            && w1 == w.(ops := w1.ops, curRef := w1.curRef, nextGuid := w1.nextGuid, lastVerse := w1.lastVerse)
            && w.nextGuid <= w1.nextGuid
  {
    var w0 := w.(curRef := Some(CellRef(w.tableIndex, r, c)));
    var nodes := CellNodes(cell, w0);
    CellInsertedRoundTrip(cell, Unmark(cell), w0, WalkNode(cell, w0, PLAIN), nodes, base, table, r, invalid,
                          rows, done);
  }

  lemma CellInsertedRoundTrip(cell: Node, elem: Node, w: Walk, w1: Walk, nodes: seq<Node>, base: seq<Node>,
                              table: Attrs, r: nat, invalid: bool, rows: seq<Node>, done: seq<Node>)
    requires AtBoundary(w) && cell.Elem? && w.tableIndex > 0 && Adds(w, w1, PLAIN, nodes) && w1.curRef.Some?
    requires cell.name != "cell" ==> nodes == [elem] && elem.Elem?
    requires cell.name == "cell" ==> Container("cell", cell.attrs, nodes) == elem
    requires Lookup(table, "id") == Some(TableId(w.tableIndex))
    requires if done == [] then BeforeRow(Run(w.ops), base, table, w.tableIndex, r, rows)
             else Run(w.ops) == InTable(base, table, w.tableIndex, r, rows, done)
    ensures AtCell(CellInserted(cell, w1, w.tableIndex, table, r, invalid),
                   InTable(base, table, w.tableIndex, r, rows, done + [elem]))
  {
    hide Run, BeforeRow, SegmentEnded, Appended, Aligned, AddTop, Numbered, Ready;
    var fmt := CellFmt(cell, w.tableIndex, table, r, invalid);
    var ops := Appended(SegmentEnded(w1.ops, w1.curRef), Op(Str("\n"), fmt));
    var cells := done + [elem];
    CellBreak(cell, elem, w, w1, nodes, base, table, r, invalid, rows, done);
    CellDone(w1, w1.(ops := ops), fmt, InTable(base, table, w.tableIndex, r, rows, cells), base, table, r, rows, cells);
  }

  /** The line break of a cell is read as that cell. */
  lemma CellBreak(cell: Node, elem: Node, w: Walk, w1: Walk, nodes: seq<Node>, base: seq<Node>, table: Attrs, r: nat,
                  invalid: bool, rows: seq<Node>, done: seq<Node>)
    requires AtBoundary(w) && cell.Elem? && w.tableIndex > 0 && Adds(w, w1, PLAIN, nodes) && w1.curRef.Some?
    requires cell.name != "cell" ==> nodes == [elem] && elem.Elem?
    requires cell.name == "cell" ==> Container("cell", cell.attrs, nodes) == elem
    requires Lookup(table, "id") == Some(TableId(w.tableIndex))
    requires if done == [] then BeforeRow(Run(w.ops), base, table, w.tableIndex, r, rows)
             else Run(w.ops) == InTable(base, table, w.tableIndex, r, rows, done)
    ensures var fmt := CellFmt(cell, w.tableIndex, table, r, invalid);
            var ops := Appended(SegmentEnded(w1.ops, w1.curRef), Op(Str("\n"), fmt));
            ops != [] && Last(ops).fmt == fmt
            && Run(ops) == InTable(base, table, w.tableIndex, r, rows, done + [elem])
  {
    hide Run, BeforeRow, InTable, SegmentEnded, Adds, Numbered, TextRead, AddTop, CellEnded;
    var fmt := CellFmt(cell, w.tableIndex, table, r, invalid);
    LineBreak(w, w1, fmt, nodes);
    CellTextRead(AddTop(Run(w.ops), nodes), fmt);
    assert CellElem(nodes, fmt.cell) == elem;
    if done == [] {
      FirstCellRead(Run(w.ops), base, table, w.tableIndex, r, rows, nodes, fmt.cell);
      assert done + [elem] == [elem];
    } else {
      NextCellRead(base, table, w.tableIndex, r, rows, done, nodes, fmt.cell);
    }
  }

  lemma CellTextRead(m: Machine, fmt: Fmt)
    requires fmt.table.Some?
    requires fmt == PLAIN.(table := fmt.table, row := fmt.row, cell := fmt.cell, invalidBlock := fmt.invalidBlock)
    ensures TextRead(m, "\n", fmt) == CellEnded(m, fmt.table.value, fmt.row, fmt.cell)
  {
    assert fmt != PLAIN;
  }

  lemma CellDone(w1: Walk, w2: Walk, fmt: Fmt, m: Machine, base: seq<Node>, table: Attrs, r: nat, rows: seq<Node>,
                 cells: seq<Node>)
    requires w2 == w1.(ops := w2.ops)
    requires w2.ops != [] && Last(w2.ops).fmt == fmt && fmt.table.Some?
    requires m == InTable(base, table, w1.tableIndex, r, rows, cells) && Run(w2.ops) == m
    requires Lookup(table, "id") == Some(TableId(w1.tableIndex))
    ensures AtCell(w2, m)
  {
    assert m.row.value == RowAttrs(w1.tableIndex, r);
  }

  /** What is on top of the stack when a cell ends. */
  lemma CellNodes(cell: Node, w: Walk) returns (nodes: seq<Node>)
    requires AtBoundary(w) && Cell(cell) && w.curRef.Some?
    ensures Adds(w, WalkNode(cell, w, PLAIN), PLAIN, nodes)
    ensures cell.name != "cell" ==> nodes == [Unmark(cell)]
    ensures cell.name == "cell" ==> Container("cell", cell.attrs, nodes) == Unmark(cell)
  {
    hide Run, Aligned;
    if cell.name == "cell" {
      if cell.kids != [] {
        BoundaryCanFollow(w, cell.kids[0]);
      }
      InlinesRoundTrip(cell.kids, w, PLAIN);
      nodes := UnmarkAll(cell.kids);
      assert Restored(cell.attrs) == cell.attrs;
    } else {
      BoundaryCanFollow(w, cell);
      NodeRoundTrip(cell, w, PLAIN);
      nodes := [Unmark(cell)];
    }
  }

  /** The remaining cells of row `r`. */
  lemma {:induction false} CellsRoundTrip(cells: seq<Node>, w: Walk, base: seq<Node>, table: Attrs, r: nat, c: nat,
                                          invalid: bool, rows: seq<Node>, done: seq<Node>)
    requires AtBoundary(w) && Cells(cells) && w.tableIndex > 0 && (cells != [] || done != [])
    requires Lookup(table, "id") == Some(TableId(w.tableIndex))
    requires if done == [] then BeforeRow(Run(w.ops), base, table, w.tableIndex, r, rows)
             else Run(w.ops) == InTable(base, table, w.tableIndex, r, rows, done)
    ensures var w1 := WalkCells(cells, w, w.tableIndex, table, r, c, invalid);
            AtCell(w1, InTable(base, table, w.tableIndex, r, rows, done + UnmarkAll(cells)))
            && w1 == w.(ops := w1.ops, curRef := w1.curRef, nextGuid := w1.nextGuid, lastVerse := w1.lastVerse)
            && w.nextGuid <= w1.nextGuid
    decreases cells
  {
    if cells == [] {
      assert done + UnmarkAll(cells) == done;
    } else {
      CellRoundTrip(cells[0], w, base, table, r, c, invalid, rows, done);
      var w1 := WalkCell(cells[0], w, w.tableIndex, table, r, c, invalid);
      CellsRoundTrip(cells[1..], w1, base, table, r, c + 1, invalid, rows, done + [Unmark(cells[0])]);
      UnmarkHead(done, cells);
    }
  }

  lemma UnmarkHead(done: seq<Node>, ns: seq<Node>)
    requires ns != []
    ensures done + [Unmark(ns[0])] + UnmarkAll(ns[1..]) == done + UnmarkAll(ns)
  {
    AppendAssoc(done, [Unmark(ns[0])], UnmarkAll(ns[1..]));
  }

  lemma UnmarkOnly(done: seq<Node>, ns: seq<Node>)
    requires |ns| == 1
    ensures done + [Unmark(ns[0])] == done + UnmarkAll(ns)
  {
    assert UnmarkAll(ns) == [Unmark(ns[0])] + UnmarkAll([]);
  }

  lemma AppendAssoc<T>(a: seq<T>, b: seq<T>, c: seq<T>)
    ensures a + b + c == a + (b + c)
  {
  }

  lemma RowAfterRow(base: seq<Node>, table: Attrs, t: nat, r: nat, rows: seq<Node>, cells: seq<Node>)
    requires t > 0 && Lookup(table, "id") == Some(TableId(t))
    ensures BeforeRow(InTable(base, table, t, r, rows, cells), base, table, t, r + 1, rows + [RowElem(cells)])
  {
  }

  /** Between `w` and `w1`, a table was read that holds these rows. */
  ghost predicate RowsRead(w: Walk, w1: Walk, base: seq<Node>, table: Attrs, rows: seq<Node>) {
    AtBoundary(w1) && Run(w1.ops).table.Some? && Settled(Run(w1.ops)) == base + [Container("table", table, rows)]
    && w1 == w.(ops := w1.ops, curRef := w1.curRef, nextGuid := w1.nextGuid, lastVerse := w1.lastVerse)
    && w.nextGuid <= w1.nextGuid
  }

  /** The remaining rows of a table. */
  lemma {:induction false} RowsRoundTrip(rows: seq<Node>, w: Walk, base: seq<Node>, table: Attrs, r: nat, invalid: bool,
                                         done: seq<Node>)
    requires AtBoundary(w) && Rows(rows) && rows != [] && w.tableIndex > 0
    requires BeforeRow(Run(w.ops), base, table, w.tableIndex, r, done)
    ensures RowsRead(w, WalkRows(rows, w, table, r, invalid), base, table, done + UnmarkAll(rows))
    decreases rows
  {
    hide Run, WalkRows, WalkCells, UnmarkAll;
    var w1 := RowRoundTrip(rows[0], w, base, table, r, invalid, done);
    RowsUnfolded(rows, w, w1, table, r, invalid);
    if |rows| > 1 {
      RowsRoundTrip(rows[1..], w1, base, table, r + 1, invalid, done + [Unmark(rows[0])]);
      UnmarkHead(done, rows);
      RowsReadAfter(w, w1, WalkRows(rows[1..], w1, table, r + 1, invalid), base, table, done + UnmarkAll(rows));
    } else {
      UnmarkOnly(done, rows);
    }
  }

  lemma RowsUnfolded(rows: seq<Node>, w: Walk, w1: Walk, table: Attrs, r: nat, invalid: bool)
    requires rows != [] && IsElement(rows[0], "row")
    requires w1 == WalkCells(rows[0].kids, w, w.tableIndex, table, r, 1, invalid || rows[0].invalid)
    ensures WalkRows(rows, w, table, r, invalid)
         == if |rows| == 1 then w1 else WalkRows(rows[1..], w1, table, r + 1, invalid)
  {
  }

  lemma RowsReadAfter(w: Walk, w1: Walk, w2: Walk, base: seq<Node>, table: Attrs, rows: seq<Node>)
    requires w1 == w.(ops := w1.ops, curRef := w1.curRef, nextGuid := w1.nextGuid, lastVerse := w1.lastVerse)
      && w.nextGuid <= w1.nextGuid
    requires RowsRead(w1, w2, base, table, rows)
    ensures RowsRead(w, w2, base, table, rows)
  {
  }

  lemma RowRoundTrip(row: Node, w: Walk, base: seq<Node>, table: Attrs, r: nat, invalid: bool, done: seq<Node>)
      returns (w1: Walk)
    requires AtBoundary(w) && Row(row) && w.tableIndex > 0
    requires BeforeRow(Run(w.ops), base, table, w.tableIndex, r, done)
    ensures w1 == WalkCells(row.kids, w, w.tableIndex, table, r, 1, invalid || row.invalid)
    ensures RowsRead(w, w1, base, table, done + [Unmark(row)])
    ensures BeforeRow(Run(w1.ops), base, table, w.tableIndex, r + 1, done + [Unmark(row)])
  {
    w1 := WalkCells(row.kids, w, w.tableIndex, table, r, 1, invalid || row.invalid);
    CellsRoundTrip(row.kids, w, base, table, r, 1, invalid || row.invalid, done, []);
    var cells := UnmarkAll(row.kids);
    assert [] + cells == cells;
    assert Restored(row.attrs) == row.attrs && RowElem(cells) == Unmark(row);
    RowAfterRow(base, table, w.tableIndex, r, done, cells);
  }

  lemma {:induction false} TableRoundTrip(n: Node, w: Walk)
    requires AtBoundary(w) && TopLevel(n) && n.name == "table"
    ensures var w1 := WalkTable(n, w);
            AddsBlock(w, w1, n) && Run(w1.ops).table.Some?
            && w1 == w.(ops := w1.ops, curRef := None, nextGuid := w1.nextGuid, tableIndex := w1.tableIndex,
                        lastVerse := w1.lastVerse)
  {
    hide Run, WalkRows, Rows, UnmarkAll, Aligned, Container, Restored;
    var t := w.tableIndex + 1;
    var table := n.attrs["id" := TableId(t)];
    RowsRoundTrip(n.kids, w.(tableIndex := t), Settled(Run(w.ops)), table, 1, n.invalid, []);
    TableRestored(n, table);
  }

  lemma TableRestored(n: Node, table: Attrs)
    requires n.Elem? && n.name == "table" && PlainAttrs(n.attrs) && "id" in table
      && table == n.attrs["id" := table["id"]]
    ensures Container("table", table, [] + UnmarkAll(n.kids)) == Unmark(n)
  {
    hide UnmarkAll;
    assert Restored(table) == n.attrs;
    assert [] + UnmarkAll(n.kids) == UnmarkAll(n.kids);
  }

  // ----- chapters

  lemma ChapterRoundTripRead(m: Machine, attrs: Attrs)
    requires Idle(m) && PlainAttrs(attrs)
    ensures ChapterRead(m, attrs)
         == Machine(Settled(m) + [Elem("chapter", attrs, [], false)], [[]], [], None,
                    if m.table.Some? then None else m.row)
  {
    assert Restored(attrs) == attrs;
  }
}
