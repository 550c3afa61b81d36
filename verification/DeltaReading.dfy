/**
 * What each op of a delta does to the document under construction, as functions on the reader's state.
 * DeltaReader.dfy holds the loop itself.
 */
module DeltaReading {
  import opened Wrappers
  import opened UsxNodes
  import opened RichText

  /**
   * The state of the reading loop: finished blocks, the stack of unfinished node lists (innermost last), the open
   * character formatting (outermost first), and the open table and row. `Fault` is a thrown exception.
   */
  datatype Machine =
    | Fault
    | Machine(
        content: seq<Node>,
        stack: seq<seq<Node>>,
        chars: seq<Attrs>,
        table: Option<Attrs>,
        row: Option<Attrs>)

  const INITIAL := Machine([], [[]], [], None, None)

  /** The attributes an element is given back. */
  function Restored(attrs: Attrs): Attrs {
    attrs - {"id", "invalid"}
  }

  function Container(name: string, attrs: Attrs, kids: seq<Node>): Node {
    Elem(name, Restored(attrs), kids, false)
  }

  function Top(m: Machine): seq<Node>
    requires m.Machine? && m.stack != []
  {
    m.stack[|m.stack| - 1]
  }

  function SetTop(m: Machine, ns: seq<Node>): (r: Machine)
    requires m.Machine? && m.stack != []
    ensures r.Machine?
  {
    m.(stack := m.stack[..|m.stack| - 1] + [ns])
  }

  function AddTop(m: Machine, ns: seq<Node>): Machine {
    if m.Fault? || m.stack == [] then Fault else SetTop(m, Top(m) + ns)
  }

  function Push(m: Machine): Machine {
    if m.Fault? then Fault else m.(stack := m.stack + [[]])
  }

  function Pop(m: Machine): Machine {
    if m.Fault? || m.stack == [] then Fault else m.(stack := m.stack[..|m.stack| - 1])
  }

  // ----- character formatting

  /** Closes the innermost open `char`. */
  function CharEnded(m: Machine): Machine {
    if m.Fault? || m.stack == [] || m.chars == [] then Fault
    else
      var c := m.chars[|m.chars| - 1];
      AddTop(Pop(m.(chars := m.chars[..|m.chars| - 1])), [Container("char", c - {"cid"}, Top(m))])
  }

  /** Closes characters until those still open are the outermost of `target`. */
  function CharsClosed(m: Machine, target: seq<Attrs>): Machine
    decreases if m.Fault? then 0 else |m.chars|
  {
    if m.Fault? || m.chars <= target then m else CharsClosed(CharEnded(m), target)
  }

  function Opened(m: Machine, target: seq<Attrs>): Machine
    requires m.Machine? ==> m.chars <= target
    decreases if m.Fault? then 0 else |target| - |m.chars|
  {
    if m.Fault? || m.chars == target then m
    else Opened(m.(stack := m.stack + [[]], chars := target[..|m.chars| + 1]), target)
  }

  lemma {:induction false} CharsClosedPrefix(m: Machine, target: seq<Attrs>)
    ensures var r := CharsClosed(m, target); r.Machine? ==> m.Machine? && r.chars <= target && r.chars <= m.chars
    decreases if m.Fault? then 0 else |m.chars|
  {
    if m.Machine? && !(m.chars <= target) {
      CharsClosedPrefix(CharEnded(m), target);
    }
  }

  /** Closing stops as soon as it can: one character more would not be among the outermost of `target`. */
  lemma {:induction false} CharsClosedStops(m: Machine, target: seq<Attrs>)
    requires CharsClosed(m, target).Machine?
    ensures var open := CharsClosed(m, target).chars;
      m.Machine? && open <= m.chars && open <= target && (|open| < |m.chars| ==> !(m.chars[..|open| + 1] <= target))
    decreases if m.Machine? then |m.chars| else 0
  {
    if !(m.chars <= target) {
      var closed := CharEnded(m);
      CharsClosedStops(closed, target);
      var open := CharsClosed(m, target).chars;
      assert closed.chars == m.chars[..|m.chars| - 1];
      if |open| < |closed.chars| {
        assert closed.chars[..|open| + 1] == m.chars[..|open| + 1];
      } else {
        assert open == closed.chars && m.chars[..|open| + 1] == m.chars;
      }
    }
  }

  /** The state in which text with formatting `target` can be added on top. */
  function Aligned(m: Machine, target: seq<Attrs>): Machine {
    CharsClosedPrefix(m, target);
    Opened(CharsClosed(m, target), target)
  }

  // ----- tables

  /** Moves the open cells into a row. Whatever followed the last cell is returned for the next block. */
  function RowEnded(m: Machine): (Machine, Option<seq<Node>>) {
    if m.Fault? || !(2 <= |m.stack| <= 3) then (Fault, None)
    else
      var next := if |m.stack| == 3 then Some(m.stack[2]) else None;
      var row := Container("row", map["style" := "tr"], m.stack[1]);
      (m.(stack := [m.stack[0] + [row]], row := None), next)
  }

  function TableEnded(m: Machine): Machine {
    if m.Fault? || m.stack == [] || m.table.None? then Fault
    else SetTop(m.(content := m.content + [Container("table", m.table.value, Top(m))], table := None), [])
  }

  /** A block that is not part of the open table begins. */
  function TableLeft(m: Machine): Machine {
    var (m1, next) := RowEnded(m);
    if next.None? then Fault else AddTop(TableEnded(m1), next.value)
  }

  function PaddedTo2(m: Machine): Machine
    decreases if m.Fault? then 0 else 2 - |m.stack|
  {
    if m.Fault? || |m.stack| >= 2 then m else PaddedTo2(Push(m))
  }

  /** A line break that carries a table: the text before it is a cell. */
  function CellEnded(m: Machine, table: Attrs, row: Option<Attrs>, cell: Option<Attrs>): Machine {
    if m.Fault? || m.stack == [] then Fault
    else if cell.None? && !(|Top(m)| == 1 && Top(m)[0].Elem?) then Fault
    else
      var cellElem := if cell.Some? then Container("cell", cell.value, Top(m)) else Top(m)[0];
      CellAdded(RowsClosed(Pop(m), table, row), cellElem, table, row)
  }

  /** The cell goes into the open row, or a new one, and an empty list waits for the next cell. */
  function CellAdded(m: Machine, cellElem: Node, table: Attrs, row: Option<Attrs>): Machine {
    var m1 := Push(AddTop(PaddedTo2(m), [cellElem]));
    if m1.Fault? then Fault else m1.(table := Some(table), row := row)
  }

  /** Closes the open row, and the open table, if the next cell belongs to others. */
  function RowsClosed(m: Machine, table: Attrs, row: Option<Attrs>): Machine {
    if m.Fault? || m.table.None? then m
    else if row.None? || m.row.None? then Fault
    else
      var m1 := if Lookup(row.value, "id") != Lookup(m.row.value, "id") then RowEnded(m).0 else m;
      if Lookup(table, "id") != Lookup(m.table.value, "id") then TableEnded(m1) else m1
  }

  // ----- text

  function WithoutLineBreaks(s: string): string {
    if s == [] then [] else (if s[0] == '\n' then [] else [s[0]]) + WithoutLineBreaks(s[1..])
  }

  /** Text without attributes: implied paragraphs end at its line breaks. */
  function PlainTextRead(m: Machine, text: string): Machine {
    if m.Fault? || m.stack == [] then Fault
    else if text != "" && text[|text| - 1] == '\n' then
      var m1 := if |text| > 1 then AddTop(m, [Text(WithoutLineBreaks(text))]) else m;
      SetTop(m1.(content := m1.content + Top(m1)), [])
    else AddTop(m, [Text(text)])
  }

  function Repeated(n: Node, times: nat): seq<Node> {
    if times == 0 then [] else [n] + Repeated(n, times - 1)
  }

  function BlockRead(m: Machine, block: Block, length: nat): Machine {
    if m.Fault? || m.stack == [] then Fault
    else
      SetTop(m.(content := m.content + Repeated(Container(block.name, block.attrs, Top(m)), length)), [])
  }

  /** Text with attributes, one attribute after another. */
  function FormattedTextRead(m: Machine, text: string, fmt: Fmt): Machine {
    var m1 := if fmt.block.Some? then BlockRead(m, fmt.block.value, |text|) else m;
    var m2 := if fmt.ref.Some? then AddTop(m1, [Container("ref", fmt.ref.value, [Text(text)])]) else m1;
    var m3 := if fmt.chars != [] && fmt.ref.None? then AddTop(m2, [Text(text)]) else m2;
    if fmt.segment.Some? && fmt == PLAIN.(segment := fmt.segment) then AddTop(m3, [Text(text)]) else m3
  }

  /** Text may end a cell, or be the first block after a table. */
  function TableTracked(m: Machine, text: string, fmt: Fmt): Machine {
    if m.Fault? then Fault
    else if m.table.Some? && fmt.table.None? && text == "\n" then TableLeft(m)
    else if fmt.table.Some? then CellEnded(m, fmt.table.value, fmt.row, fmt.cell)
    else m
  }

  function TextRead(m: Machine, text: string, fmt: Fmt): Machine {
    var m1 := TableTracked(m, text, fmt);
    if fmt == PLAIN then PlainTextRead(m1, text) else FormattedTextRead(m1, text, fmt)
  }

  // ----- embeds and whole deltas

  function ChapterRead(m: Machine, attrs: Attrs): Machine {
    if m.Fault? then Fault
    else
      var m1 := if m.table.Some? then TableEnded(RowEnded(m).0) else m;
      if m1.Fault? then Fault else m1.(content := m1.content + [Container("chapter", attrs, [])])
  }

  function Step(m: Machine, op: Op): Machine
    decreases op, 2
  {
    var a := Aligned(m, op.fmt.chars);
    match op.insert
    case Str(text) => TextRead(a, text, op.fmt)
    case Blank => a
    case Empty => a
    case Embed(name, attrs, contents) =>
      if name == "chapter" then ChapterRead(a, attrs)
      else if name == "blank" || name == "empty" then a
      else
        var kids := ProcessDelta(contents);
        if kids.None? then Fault else AddTop(a, [Container(name, attrs, kids.value)])
  }

  function Run(ops: seq<Op>): Machine
    decreases ops, 0
  {
    if ops == [] then INITIAL else Step(Run(ops[..|ops| - 1]), ops[|ops| - 1])
  }

  /** What the end of the delta leaves: everything still open is closed. */
  function Finished(m: Machine): Option<seq<Node>> {
    var m1 := CharsClosed(m, []);
    var m2 := if m1.Machine? && m1.table.Some? then TableEnded(RowEnded(m1).0) else m1;
    if m2.Fault? || m2.stack == [] then None else Some(m2.content + Top(m2))
  }

  /** The nodes a delta describes, or nothing if reading it throws. */
  function ProcessDelta(ops: seq<Op>): Option<seq<Node>>
    decreases ops, 1
  {
    Finished(Run(ops))
  }

  // ----- faults

  lemma FaultStep(m: Machine, op: Op)
    requires m.Fault?
    ensures Step(m, op).Fault?
  {
  }

  /** What has thrown stays thrown. */
  lemma {:induction false} FaultStays(ops: seq<Op>, i: nat)
    requires i <= |ops| && Run(ops[..i]).Fault?
    ensures Run(ops).Fault?
    decreases |ops| - i
  {
    if i == |ops| {
      assert ops[..i] == ops;
    } else {
      assert ops[..i + 1][..i] == ops[..i];
      FaultStep(Fault, ops[i]);
      FaultStays(ops, i + 1);
    }
  }
}
