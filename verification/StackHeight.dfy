/** The stack of unfinished node lists has the same height after every op, so reading never throws. */
module StackHeight {
  import opened Wrappers
  import opened UsxNodes
  import opened RichText
  import opened DeltaReading
  import opened InlineRoundTrip

  /** Line breaks and chapters are outside character formatting, and cells name their row. */
  predicate PlacedOp(op: Op)
    decreases op, 1
  {
    match op.insert
    case Str(text) =>
      (text == "\n" || op.fmt.table.Some? ==> op.fmt.chars == [])
      && (op.fmt.table.Some? ==> op.fmt.row.Some? && op.fmt.cell.Some?)
    case Embed(name, _, contents) => (name == "chapter" ==> op.fmt.chars == []) && PlacedOps(contents)
    case _ => true
  }

  predicate PlacedOps(ops: seq<Op>)
    decreases ops, 0
  {
    ops == [] || (PlacedOps(ops[..|ops| - 1]) && PlacedOp(ops[|ops| - 1]))
  }

  /** One list for each open character, three for an open table, one otherwise. */
  predicate AtHeight(m: Machine) {
    m.Machine? && |m.stack| == |m.chars| + (if m.table.Some? then 3 else 1) && (m.table.Some? ==> m.row.Some?)
  }

  lemma {:induction false} ClosedHeight(m: Machine, t: seq<Attrs>)
    requires AtHeight(m)
    ensures AtHeight(CharsClosed(m, t))
    decreases |m.chars|
  {
    if !(m.chars <= t) {
      ClosedHeight(CharEnded(m), t);
    }
  }

  lemma {:induction false} OpenedHeight(m: Machine, t: seq<Attrs>)
    requires AtHeight(m) && m.chars <= t
    ensures AtHeight(Opened(m, t))
    decreases |t| - |m.chars|
  {
    if m.chars != t {
      OpenedHeight(m.(stack := m.stack + [[]], chars := t[..|m.chars| + 1]), t);
    }
  }

  lemma AlignedHeight(m: Machine, t: seq<Attrs>)
    requires AtHeight(m)
    ensures AtHeight(Aligned(m, t)) && Aligned(m, t).chars == t
  {
    ClosedHeight(m, t);
    CharsClosedPrefix(m, t);
    OpenedHeight(CharsClosed(m, t), t);
    OpenedChars(CharsClosed(m, t), t);
  }

  lemma TableLeftHeight(m: Machine)
    requires AtHeight(m) && m.table.Some? && m.chars == []
    ensures AtHeight(TableLeft(m)) && TableLeft(m).table.None?
  {
    var (m1, next) := RowEnded(m);
    assert next == Some(m.stack[2]) && |m1.stack| == 1;
    assert |TableEnded(m1).stack| == 1;
  }

  lemma CellEndedHeight(m: Machine, table: Attrs, row: Attrs, cell: Attrs)
    requires AtHeight(m) && m.chars == []
    ensures AtHeight(CellEnded(m, table, Some(row), Some(cell)))
  {
    var r := RowsClosed(Pop(m), table, Some(row));
    RowsClosedHeight(Pop(m), table, row);
    PaddedHeight(r);
  }

  lemma RowsClosedHeight(p: Machine, table: Attrs, row: Attrs)
    requires p.Machine? && p.chars == [] && |p.stack| == (if p.table.Some? then 2 else 0)
    requires p.table.Some? ==> p.row.Some?
    ensures var r := RowsClosed(p, table, Some(row)); r.Machine? && |r.stack| <= 2 && r.chars == []
  {
    if p.table.Some? {
      var m1 := if Lookup(row, "id") != Lookup(p.row.value, "id") then RowEnded(p).0 else p;
      assert m1.Machine? && 1 <= |m1.stack| <= 2 && m1.chars == [] && m1.table == p.table;
    }
  }

  lemma {:induction false} PaddedHeight(m: Machine)
    requires m.Machine? && |m.stack| <= 2
    ensures PaddedTo2(m).Machine? && |PaddedTo2(m).stack| == 2 && PaddedTo2(m).chars == m.chars
    decreases 2 - |m.stack|
  {
    if |m.stack| < 2 {
      PaddedHeight(Push(m));
    }
  }

  lemma TrackedHeight(m: Machine, text: string, fmt: Fmt)
    requires AtHeight(m) && m.chars == fmt.chars && PlacedOp(Op(Str(text), fmt))
    ensures AtHeight(TableTracked(m, text, fmt))
  {
    if m.table.Some? && fmt.table.None? && text == "\n" {
      TableLeftHeight(m);
    } else if fmt.table.Some? {
      CellEndedHeight(m, fmt.table.value, fmt.row.value, fmt.cell.value);
    }
  }

  lemma FormattedHeight(m: Machine, text: string, fmt: Fmt)
    requires AtHeight(m)
    ensures AtHeight(FormattedTextRead(m, text, fmt))
  {
    var m1 := if fmt.block.Some? then BlockRead(m, fmt.block.value, |text|) else m;
    assert AtHeight(m1);
    var m2 := if fmt.ref.Some? then AddTop(m1, [Container("ref", fmt.ref.value, [Text(text)])]) else m1;
    assert AtHeight(m2);
  }

  lemma {:induction false} StepHeight(m: Machine, op: Op)
    requires AtHeight(m) && PlacedOp(op)
    ensures AtHeight(Step(m, op))
    decreases op, 1
  {
    AlignedHeight(m, op.fmt.chars);
    var a := Aligned(m, op.fmt.chars);
    match op.insert
    case Str(text) => TextHeight(a, text, op.fmt);
    case Blank => assert Step(m, op) == a;
    case Empty => assert Step(m, op) == a;
    case Embed(name, attrs, contents) =>
      ReadingSucceeds(contents);
      EmbedHeight(m, a, op);
  }

  lemma TextHeight(m: Machine, text: string, fmt: Fmt)
    requires AtHeight(m) && m.chars == fmt.chars && PlacedOp(Op(Str(text), fmt))
    ensures AtHeight(TextRead(m, text, fmt))
  {
    hide TableTracked, FormattedTextRead, WithoutLineBreaks;
    TrackedHeight(m, text, fmt);
    var m1 := TableTracked(m, text, fmt);
    FormattedHeight(m1, text, fmt);
    assert AtHeight(PlainTextRead(m1, text));
  }

  lemma EmbedHeight(m: Machine, a: Machine, op: Op)
    requires op.insert.Embed? && ProcessDelta(op.insert.contents).Some?
    requires a == Aligned(m, op.fmt.chars) && AtHeight(a) && a.chars == op.fmt.chars
    requires op.insert.name == "chapter" ==> a.chars == []
    ensures AtHeight(Step(m, op))
  {
    var kids := ProcessDelta(op.insert.contents).value;
    assert AtHeight(AddTop(a, [Container(op.insert.name, op.insert.attrs, kids)]));
    if op.insert.name == "chapter" && a.table.Some? {
      assert |RowEnded(a).0.stack| == 1;
    }
  }

  /** After every op of a delta whose line breaks are placed like this, the stack is at its height. */
  lemma {:induction false} RunHeight(ops: seq<Op>)
    requires PlacedOps(ops)
    ensures AtHeight(Run(ops))
    decreases ops, 0
  {
    if ops != [] {
      RunHeight(ops[..|ops| - 1]);
      StepHeight(Run(ops[..|ops| - 1]), ops[|ops| - 1]);
    }
  }

  /** No stack underflow, no misplaced table: such a delta can always be read. */
  lemma {:induction false} ReadingSucceeds(ops: seq<Op>)
    requires PlacedOps(ops)
    ensures ProcessDelta(ops).Some?
    decreases ops, 1
  {
    RunHeight(ops);
    ClosedHeight(Run(ops), []);
    CharsClosedPrefix(Run(ops), []);
    FinishedFromHeight(CharsClosed(Run(ops), []));
  }

  lemma FinishedFromHeight(m: Machine)
    requires AtHeight(m) && m.chars == []
    ensures Finished(m).Some?
  {
    assert m.table.Some? ==> |RowEnded(m).0.stack| == 1;
  }

  lemma BreakWithOpenTable(m: Machine, fmt: Fmt)
    requires AtHeight(m) && m.table.Some? && fmt.table.None?
    ensures Step(m, Op(Str("\n"), fmt)).Fault? <==> fmt.chars != []
  {
    AlignedHeight(m, fmt.chars);
    var a := Aligned(m, fmt.chars);
    OpenTable(m, fmt.chars);
    if fmt.chars == [] {
      TextHeight(a, "\n", fmt);
    } else {
      assert TableLeft(a).Fault?;
    }
  }

  lemma ChapterWithOpenTable(m: Machine, op: Op)
    requires AtHeight(m) && m.table.Some? && op.insert.Embed? && op.insert.name == "chapter"
    ensures Step(m, op).Fault? <==> op.fmt.chars != []
  {
    AlignedHeight(m, op.fmt.chars);
    OpenTable(m, op.fmt.chars);
  }

  /** The line break of a cell that begins another row. */
  lemma CellWithOpenTable(m: Machine, text: string, fmt: Fmt)
    requires AtHeight(m) && m.table.Some? && fmt.table.Some? && fmt.row.Some? && fmt.cell.Some?
    requires Lookup(fmt.row.value, "id") != Lookup(m.row.value, "id")
    ensures Step(m, Op(Str(text), fmt)).Fault? <==> |fmt.chars| > 1
  {
    hide WithoutLineBreaks, CharsClosed, Opened, PaddedTo2;
    AlignedHeight(m, fmt.chars);
    var a := Aligned(m, fmt.chars);
    OpenTable(m, fmt.chars);
    OpenRow(m, fmt.chars);
    if |fmt.chars| > 1 {
      assert RowEnded(Pop(a)).0.Fault?;
      assert PaddedTo2(Fault).Fault? by { PaddedFault(); }
      assert FormattedTextRead(Fault, text, fmt).Fault?;
    } else {
      var closed := RowsClosed(Pop(a), fmt.table.value, fmt.row);
      assert closed.Machine? && |closed.stack| == 1;
      PaddedHeight(closed);
      CellEndedSound(a, text, fmt);
    }
  }

  lemma PaddedFault()
    ensures PaddedTo2(Fault) == Fault
  {
  }

  lemma CellEndedSound(a: Machine, text: string, fmt: Fmt)
    requires a.Machine? && a.stack != [] && fmt.table.Some? && fmt.row.Some? && fmt.cell.Some?
    requires var q := PaddedTo2(RowsClosed(Pop(a), fmt.table.value, fmt.row)); q.Machine? && |q.stack| == 2
    ensures TextRead(a, text, fmt).Machine?
  {
    hide PaddedTo2, RowsClosed, WithoutLineBreaks;
    var m1 := CellEnded(a, fmt.table.value, fmt.row, fmt.cell);
    assert m1.Machine? && |m1.stack| == 3;
    var m2 := if fmt.block.Some? then BlockRead(m1, fmt.block.value, |text|) else m1;
    assert m2.Machine? && |m2.stack| == 3;
  }

  lemma {:induction false} ClosedRow(m: Machine, t: seq<Attrs>)
    requires AtHeight(m)
    ensures CharsClosed(m, t).Machine? && CharsClosed(m, t).row == m.row
    decreases |m.chars|
  {
    if !(m.chars <= t) { ClosedRow(CharEnded(m), t); }
  }

  lemma {:induction false} OpenedRow(m: Machine, t: seq<Attrs>)
    requires m.Machine? && m.chars <= t
    ensures Opened(m, t).Machine? && Opened(m, t).row == m.row
    decreases |t| - |m.chars|
  {
    if m.chars != t { OpenedRow(m.(stack := m.stack + [[]], chars := t[..|m.chars| + 1]), t); }
  }

  lemma OpenRow(m: Machine, t: seq<Attrs>)
    requires AtHeight(m)
    ensures Aligned(m, t).Machine? && Aligned(m, t).row == m.row
  {
    ClosedHeight(m, t);
    CharsClosedPrefix(m, t);
    ClosedRow(m, t);
    OpenedRow(CharsClosed(m, t), t);
  }

  lemma FaultUnread(ops: seq<Op>)
    requires Run(ops).Fault?
    ensures ProcessDelta(ops).None?
  {
    hide Run;
  }

  lemma RunOne(ops: seq<Op>, op: Op)
    ensures Run(ops + [op]) == Step(Run(ops), op)
  {
    assert (ops + [op])[..|ops|] == ops;
  }

  /** Nothing after an op at which reading throws can help. */
  lemma {:induction false} UnreadableFrom(ops: seq<Op>, op: Op, rest: seq<Op>)
    requires Step(Run(ops), op).Fault?
    ensures ProcessDelta(ops + [op] + rest).None?
  {
    hide Run, Step, ProcessDelta;
    RunOne(ops, op);
    assert (ops + [op] + rest)[..|ops| + 1] == ops + [op];
    FaultStays(ops + [op] + rest, |ops| + 1);
    FaultUnread(ops + [op] + rest);
  }

  lemma {:induction false} StillReadable(ops: seq<Op>, op: Op)
    requires PlacedOps(ops) && PlacedOp(op)
    ensures ProcessDelta(ops + [op]).Some?
  {
    hide Run, ProcessDelta;
    assert (ops + [op])[..|ops|] == ops;
    ReadingSucceeds(ops + [op]);
  }

  /**
   * With a table open at the end of a delta, a line break outside the table makes the delta unreadable, whatever
   * follows, if it carries a `char`, and leaves it readable if not.
   */
  lemma {:induction false} LineBreakAfterTable(ops: seq<Op>, fmt: Fmt, rest: seq<Op>)
    requires PlacedOps(ops) && Run(ops).Machine? && Run(ops).table.Some? && fmt.table.None?
    ensures fmt.chars != [] ==> ProcessDelta(ops + [Op(Str("\n"), fmt)] + rest).None?
    ensures fmt.chars == [] ==> ProcessDelta(ops + [Op(Str("\n"), fmt)]).Some?
  {
    hide Run, Step, ProcessDelta;
    RunHeight(ops);
    BreakWithOpenTable(Run(ops), fmt);
    if fmt.chars != [] {
      UnreadableFrom(ops, Op(Str("\n"), fmt), rest);
    } else {
      StillReadable(ops, Op(Str("\n"), fmt));
    }
  }

  /** The same for a chapter. */
  lemma {:induction false} ChapterAfterTable(ops: seq<Op>, attrs: Attrs, fmt: Fmt, rest: seq<Op>)
    requires PlacedOps(ops) && Run(ops).Machine? && Run(ops).table.Some?
    ensures fmt.chars != [] ==> ProcessDelta(ops + [Op(Embed("chapter", attrs, []), fmt)] + rest).None?
    ensures fmt.chars == [] ==> ProcessDelta(ops + [Op(Embed("chapter", attrs, []), fmt)]).Some?
  {
    hide Run, Step, ProcessDelta;
    var op := Op(Embed("chapter", attrs, []), fmt);
    RunHeight(ops);
    ChapterWithOpenTable(Run(ops), op);
    if fmt.chars != [] {
      UnreadableFrom(ops, op, rest);
    } else {
      StillReadable(ops, op);
    }
  }

  /** And for a cell of another row, which takes two `char`s to be unreadable; outside any it is readable. */
  lemma {:induction false} CellAfterRow(ops: seq<Op>, text: string, fmt: Fmt, rest: seq<Op>)
    requires PlacedOps(ops) && Run(ops).Machine? && Run(ops).table.Some? && Run(ops).row.Some?
    requires fmt.table.Some? && fmt.row.Some? && fmt.cell.Some?
    requires Lookup(fmt.row.value, "id") != Lookup(Run(ops).row.value, "id")
    ensures |fmt.chars| > 1 ==> ProcessDelta(ops + [Op(Str(text), fmt)] + rest).None?
    ensures fmt.chars == [] ==> ProcessDelta(ops + [Op(Str(text), fmt)]).Some?
  {
    hide Run, Step, ProcessDelta;
    RunHeight(ops);
    CellWithOpenTable(Run(ops), text, fmt);
    if |fmt.chars| > 1 { UnreadableFrom(ops, Op(Str(text), fmt), rest); }
    if fmt.chars == [] { StillReadable(ops, Op(Str(text), fmt)); }
  }

  lemma OpenTable(m: Machine, t: seq<Attrs>)
    requires AtHeight(m)
    ensures Aligned(m, t).Machine? && Aligned(m, t).table == m.table
  {
    AlignedHeight(m, t);
    ClosedHeight(m, t);
    CharsClosedPrefix(m, t);
    ClosedTable(m, t);
    OpenedTable(CharsClosed(m, t), t);
  }

  lemma {:induction false} ClosedTable(m: Machine, t: seq<Attrs>)
    requires AtHeight(m)
    ensures CharsClosed(m, t).Machine? && CharsClosed(m, t).table == m.table
    decreases |m.chars|
  {
    if !(m.chars <= t) {
      ClosedTable(CharEnded(m), t);
    }
  }

  lemma {:induction false} OpenedTable(m: Machine, t: seq<Attrs>)
    requires m.Machine? && m.chars <= t
    ensures Opened(m, t).Machine? && Opened(m, t).table == m.table
    decreases |t| - |m.chars|
  {
    if m.chars != t {
      OpenedTable(m.(stack := m.stack + [[]], chars := t[..|m.chars| + 1]), t);
    }
  }
}
