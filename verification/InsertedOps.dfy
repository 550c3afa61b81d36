/** The walk only inserts at the end of a delta; what that leaves as it was. */
module InsertedOps {
  import opened Wrappers
  import opened UsxNodes
  import opened RichText
  import opened ChapterWalk
  import opened DeltaReading
  import opened Splicing

  function AppendedAll(ops: seq<Op>, more: seq<Op>): seq<Op>
    decreases |more|
  {
    if more == [] then ops else AppendedAll(Appended(ops, more[0]), more[1..])
  }

  predicate NoBookOps(ops: seq<Op>) {
    forall i :: 0 <= i < |ops| ==> !IsBookOp(ops[i])
  }

  /** The ops after inserting some that are not the line break of a `book`. */
  ghost predicate Inserts(ops: seq<Op>, ops1: seq<Op>) {
    exists more :: NoBookOps(more) && AppendedAll(ops, more) == ops1
  }

  lemma InsertsNothing(ops: seq<Op>)
    ensures Inserts(ops, ops)
  {
    assert NoBookOps([]) && AppendedAll(ops, []) == ops;
  }

  lemma InsertsOne(ops: seq<Op>, op: Op)
    requires !IsBookOp(op)
    ensures Inserts(ops, Appended(ops, op))
  {
    assert [op][1..] == [] && NoBookOps([op]);
    assert AppendedAll(ops, [op]) == AppendedAll(Appended(ops, op), []);
  }

  lemma {:induction false} AppendedTwice(ops: seq<Op>, a: seq<Op>, b: seq<Op>)
    ensures AppendedAll(ops, a + b) == AppendedAll(AppendedAll(ops, a), b)
    decreases |a|
  {
    if a == [] {
      assert a + b == b;
    } else {
      assert (a + b)[0] == a[0] && (a + b)[1..] == a[1..] + b;
      AppendedTwice(Appended(ops, a[0]), a[1..], b);
    }
  }

  lemma InsertsThen(ops: seq<Op>, ops1: seq<Op>, ops2: seq<Op>)
    requires Inserts(ops, ops1) && Inserts(ops1, ops2)
    ensures Inserts(ops, ops2)
  {
    var a :| NoBookOps(a) && AppendedAll(ops, a) == ops1;
    var b :| NoBookOps(b) && AppendedAll(ops1, b) == ops2;
    AppendedTwice(ops, a, b);
    assert NoBookOps(a + b);
  }

  lemma SegmentEndedInserts(ops: seq<Op>, segRef: Option<string>)
    ensures Inserts(ops, SegmentEnded(ops, segRef))
  {
    InsertsNothing(ops);
    InsertsOne(ops, Op(Blank, PLAIN.(segment := segRef)));
  }

  /** A line break or embed after the end of a segment. */
  lemma EndedInserts(ops: seq<Op>, segRef: Option<string>, op: Op)
    requires !IsBookOp(op)
    ensures Inserts(ops, Appended(SegmentEnded(ops, segRef), op))
  {
    hide Inserts;
    SegmentEndedInserts(ops, segRef);
    InsertsOne(SegmentEnded(ops, segRef), op);
    InsertsThen(ops, SegmentEnded(ops, segRef), Appended(SegmentEnded(ops, segRef), op));
  }

  // ----- every node inserts

  lemma {:induction false} NodeInserts(n: Node, w: Walk, f: Fmt)
    requires f.block.None?
    ensures Inserts(w.ops, WalkNode(n, w, f).ops)
    decreases n, 1
  {
    hide Inserts, Appended, SegmentEnded;
    match n
    case Text(v) => InsertsOne(w.ops, Op(Str(v), WithSegment(f, w.curRef)));
    case Elem(name, attrs, kids, invalid) =>
      if name == "para" {
        NestedParaInserts(n, w);
      } else if name == "verse" {
        EndedInserts(w.ops, w.curRef, Op(Embed("verse", attrs, []), InlineInvalid(PLAIN, invalid)));
      } else if name == "ref" {
        InsertsOne(w.ops, Op(Str(TextOf(kids)), WithSegment(InlineInvalid(f.(ref := Some(attrs)), invalid), w.curRef)));
      } else if name == "char" {
        CharInserts(n, w, f);
      } else if name == "table" {
        var t := w.tableIndex + 1;
        RowsInsert(kids, w.(tableIndex := t), attrs["id" := TableId(t)], 1, invalid);
        assert WalkNode(n, w, f) == WalkTable(n, w);
      } else if name == "cell" {
        NodesInsert(kids, w, PLAIN);
      } else {
        EmbedInserts(n, w, f);
      }
  }

  lemma {:induction false} NestedParaInserts(n: Node, w: Walk)
    requires IsElement(n, "para")
    ensures Inserts(w.ops, WalkNestedPara(n, w).ops)
    decreases n, 0
  {
    hide Inserts, Appended;
    var inner := WalkNodes(n.kids, FreshState(w.ops, w.nextGuid), PLAIN);
    NodesInsert(n.kids, FreshState(w.ops, w.nextGuid), PLAIN);
    InsertsOne(inner.ops, Op(Str("\n"), ParaFmt(n)));
    InsertsThen(w.ops, inner.ops, Appended(inner.ops, Op(Str("\n"), ParaFmt(n))));
  }

  lemma {:induction false} CharInserts(n: Node, w: Walk, f: Fmt)
    requires n.Elem? && f.block.None?
    ensures Inserts(w.ops, WalkChar(n, w, f).ops)
    decreases n, 0
  {
    hide Inserts, Appended;
    var g := CharFmt(n.attrs, n.invalid, w.nextGuid, f);
    InsertsOne(w.ops, Op(Empty, g.(segment := w.curRef)));
    NodesInsert(n.kids, if "cid" in n.attrs then w else w.(nextGuid := w.nextGuid + 1), g);
  }

  lemma EmbedInserts(n: Node, w: Walk, f: Fmt)
    requires n.Elem? && f.block.None?
    ensures Inserts(w.ops, WalkEmbed(n, w, f).ops)
  {
    hide Inserts, Appended;
    var inner := WalkNodes(n.kids, FreshState([], w.nextGuid), PLAIN);
    InsertsOne(w.ops, Op(Embed(n.name, n.attrs, inner.ops), WithSegment(InlineInvalid(f, n.invalid), w.curRef)));
  }

  lemma {:induction false} NodesInsert(ns: seq<Node>, w: Walk, f: Fmt)
    requires f.block.None?
    ensures Inserts(w.ops, WalkNodes(ns, w, f).ops)
    decreases ns
  {
    hide Inserts;
    if ns == [] {
      InsertsNothing(w.ops);
    } else {
      NodeInserts(ns[0], w, f);
      NodesInsert(ns[1..], WalkNode(ns[0], w, f), f);
      InsertsThen(w.ops, WalkNode(ns[0], w, f).ops, WalkNodes(ns, w, f).ops);
    }
  }

  lemma {:induction false} RowsInsert(rows: seq<Node>, w: Walk, table: Attrs, r: nat, invalid: bool)
    ensures Inserts(w.ops, WalkRows(rows, w, table, r, invalid).ops)
    decreases rows
  {
    hide Inserts;
    if rows == [] {
      InsertsNothing(w.ops);
    } else if IsElement(rows[0], "row") {
      var inv := invalid || rows[0].invalid;
      var w1 := WalkCells(rows[0].kids, w, w.tableIndex, table, r, 1, inv);
      CellsInsert(rows[0].kids, w, w.tableIndex, table, r, 1, inv);
      RowsInsert(rows[1..], w1, table, r + 1, invalid);
      InsertsThen(w.ops, w1.ops, WalkRows(rows, w, table, r, invalid).ops);
    } else {
      RowsInsert(rows[1..], w, table, r, invalid);
    }
  }

  lemma {:induction false} CellsInsert(cells: seq<Node>, w: Walk, t: nat, table: Attrs, r: nat, c: nat, invalid: bool)
    ensures Inserts(w.ops, WalkCells(cells, w, t, table, r, c, invalid).ops)
    decreases cells
  {
    hide Inserts, Appended, SegmentEnded;
    if cells == [] {
      InsertsNothing(w.ops);
    } else if cells[0].Text? {
      CellsInsert(cells[1..], w, t, table, r, c, invalid);
    } else {
      var w1 := WalkNode(cells[0], w.(curRef := Some(CellRef(w.tableIndex, r, c))), PLAIN);
      var w2 := WalkCell(cells[0], w, t, table, r, c, invalid);
      NodeInserts(cells[0], w.(curRef := Some(CellRef(w.tableIndex, r, c))), PLAIN);
      EndedInserts(w1.ops, w1.curRef, Op(Str("\n"), CellFmt(cells[0], t, table, r, invalid)));
      InsertsThen(w.ops, w1.ops, w2.ops);
      CellsInsert(cells[1..], w2, t, table, r, c + 1, invalid);
      InsertsThen(w.ops, w2.ops, WalkCells(cells, w, t, table, r, c, invalid).ops);
    }
  }

  lemma EndInserts(w: Walk)
    ensures Inserts(w.ops, ImpliedEnded(w).ops)
  {
    hide Inserts, SegmentEnded, Appended;
    InsertsNothing(w.ops);
    EndedInserts(w.ops, w.curRef, Op(Str("\n"), PLAIN));
  }

  /** A `para` or `book` inserts its line break last. */
  lemma ParaInserts(n: Node, s: BookWalk) returns (ended: seq<Op>)
    requires s.BookWalk? && n.Elem? && WalkPara(n, s).BookWalk?
    ensures Inserts(s.walk.ops, ended) && WalkPara(n, s).walk.ops == Appended(ended, Op(Str("\n"), ParaFmt(n)))
  {
    hide Inserts, ImpliedEnded, SegmentEnded, Appended, WalkNodes;
    var w := ImpliedEnded(s.walk);
    var key := ParaKey(Attr(n, "style"), w.curRef).value;
    var w0 := w.(curRef := Some(ParaRef(key.1, NextId(s.nextIds, key.0))));
    var w1 := WalkNodes(n.kids, w0, PLAIN);
    ended := SegmentEnded(w1.ops, w1.curRef);
    EndInserts(s.walk);
    NodesInsert(n.kids, w0, PLAIN);
    SegmentEndedInserts(w1.ops, w1.curRef);
    InsertsThen(s.walk.ops, w.ops, w1.ops);
    InsertsThen(s.walk.ops, w1.ops, ended);
  }

  // ----- only a `book` inserts its line break

  lemma AppendedBook(ops: seq<Op>, op: Op)
    requires op.insert != Str("")
    ensures HasBookOp(Appended(ops, op)) <==> HasBookOp(ops) || IsBookOp(op)
  {
    var r := Appended(ops, op);
    assert Last(r).fmt == op.fmt;
    if HasBookOp(ops) {
      var i :| 0 <= i < |ops| && IsBookOp(ops[i]);
      assert IsBookOp(r[i]);
    }
    if IsBookOp(op) {
      assert IsBookOp(r[|r| - 1]);
    }
    if HasBookOp(r) {
      var i :| 0 <= i < |r| && IsBookOp(r[i]);
      assert i < |ops| ==> ops[i].fmt == r[i].fmt;
      assert IsBookOp(if i < |ops| then ops[i] else op);
    }
  }

  lemma InsertsNoBook(ops: seq<Op>, ops1: seq<Op>)
    requires Inserts(ops, ops1)
    ensures HasBookOp(ops1) <==> HasBookOp(ops)
  {
    var more :| NoBookOps(more) && AppendedAll(ops, more) == ops1;
    NoBookAppended(ops, more);
  }

  lemma {:induction false} NoBookAppended(ops: seq<Op>, more: seq<Op>)
    requires NoBookOps(more)
    ensures HasBookOp(AppendedAll(ops, more)) <==> HasBookOp(ops)
    decreases |more|
  {
    hide HasBookOp;
    if more != [] {
      if more[0].insert != Str("") { AppendedBook(ops, more[0]); }
      NoBookAppended(Appended(ops, more[0]), more[1..]);
    }
  }

  // ----- what has thrown stays thrown

  /** Reading throws, and would still throw if text were merged into the last op. */
  ghost predicate Doomed(ops: seq<Op>) {
    ops != [] && (Run(ops[..|ops| - 1]).Fault? || (Run(ops).Fault? && Last(ops).fmt.table.Some?))
  }

  lemma DoomedFaults(ops: seq<Op>)
    requires Doomed(ops)
    ensures Run(ops).Fault?
  {
    if Run(ops[..|ops| - 1]).Fault? { FaultStep(Run(ops[..|ops| - 1]), Last(ops)); }
  }

  lemma DoomedAppended(ops: seq<Op>, op: Op)
    requires Doomed(ops)
    ensures Doomed(Appended(ops, op))
  {
    hide Run, Step;
    DoomedFaults(ops);
    var front, last := ops[..|ops| - 1], Last(ops);
    assert ops == front + [last];
    if op.insert.Str? && Merges(ops, op.fmt) {
      var longer := Op(Str(last.insert.text + op.insert.text), op.fmt);
      assert (front + [longer])[..|front|] == front;
      if Run(front).Machine? { CellFault(front, last, longer); }
    } else {
      assert (ops + [op])[..|ops|] == ops;
    }
  }

  /** What a cell's line break does to the reader's state does not depend on its text. */
  lemma CellFault(front: seq<Op>, op: Op, longer: Op)
    requires op.insert.Str? && longer.insert.Str? && longer.fmt == op.fmt && op.fmt.table.Some?
    requires Run(front).Machine? && Run(front + [op]).Fault?
    ensures Run(front + [longer]).Fault?
  {
    hide CellEnded, Aligned, WithoutLineBreaks;
    assert (front + [op])[..|front|] == front && (front + [longer])[..|front|] == front;
    var fmt, a := op.fmt, Aligned(Run(front), op.fmt.chars);
    assert Run(front + [op]) == TextRead(a, op.insert.text, fmt);
    assert Run(front + [longer]) == TextRead(a, longer.insert.text, fmt);
    assert TableTracked(a, op.insert.text, fmt) == TableTracked(a, longer.insert.text, fmt);
  }

  lemma DoomedInserts(ops: seq<Op>, ops1: seq<Op>)
    requires Doomed(ops) && Inserts(ops, ops1)
    ensures Doomed(ops1)
  {
    hide Doomed;
    var more :| NoBookOps(more) && AppendedAll(ops, more) == ops1;
    DoomedAll(ops, more);
  }

  lemma {:induction false} DoomedAll(ops: seq<Op>, more: seq<Op>)
    requires Doomed(ops)
    ensures Doomed(AppendedAll(ops, more))
    decreases |more|
  {
    hide Doomed;
    if more != [] {
      DoomedAppended(ops, more[0]);
      DoomedAll(Appended(ops, more[0]), more[1..]);
    }
  }

  lemma InsertsKeep(ops: seq<Op>, ops1: seq<Op>)
    requires Inserts(ops, ops1)
    ensures ops != [] ==> ops1 != []
  {
    var more :| NoBookOps(more) && AppendedAll(ops, more) == ops1;
    AppendedKeeps(ops, more);
  }

  lemma {:induction false} AppendedKeeps(ops: seq<Op>, more: seq<Op>)
    ensures ops != [] ==> AppendedAll(ops, more) != []
    decreases |more|
  {
    if more != [] { AppendedKeeps(Appended(ops, more[0]), more[1..]); }
  }
}
