/** The loop that turns a delta back into USX nodes, with the stack of unfinished node lists it keeps. */
module DeltaReader {
  import opened Wrappers
  import opened UsxNodes
  import opened RichText
  import R = DeltaReading

  class UsxBuilder {
    var content: seq<Node>
    var childNodes: seq<seq<Node>>
    var curCharAttrs: seq<Attrs>
    var curTableAttrs: Option<Attrs>
    var curRowAttrs: Option<Attrs>

    constructor ()
      ensures State() == R.INITIAL
    {
      content, childNodes, curCharAttrs, curTableAttrs, curRowAttrs := [], [[]], [], None, None;
    }

    function State(): (m: R.Machine)
      reads this
      ensures m.Machine?
    {
      R.Machine(content, childNodes, curCharAttrs, curTableAttrs, curRowAttrs)
    }

    /** `ok` is false when the source throws. */
    ghost predicate Reached(ok: bool, m: R.Machine)
      reads this
    {
      if ok then State() == m else m.Fault?
    }

    method AddNode(node: Node) returns (ok: bool)
      modifies this
      ensures Reached(ok, R.AddTop(old(State()), [node]))
    {
      ok := childNodes != [];
      if ok {
        childNodes := childNodes[|childNodes| - 1 := childNodes[|childNodes| - 1] + [node]];
      }
    }

    method EndChar() returns (ok: bool)
      modifies this
      ensures Reached(ok, R.CharEnded(old(State())))
      ensures ok ==> |curCharAttrs| < |old(curCharAttrs)|
    {
      if curCharAttrs == [] || childNodes == [] {
        return false;
      }
      var charAttrs := curCharAttrs[|curCharAttrs| - 1];
      curCharAttrs := curCharAttrs[..|curCharAttrs| - 1];
      var charElem := R.Container("char", charAttrs - {"cid"}, childNodes[|childNodes| - 1]);
      childNodes := childNodes[..|childNodes| - 1];
      ok := AddNode(charElem);
    }

    method CloseChars(target: seq<Attrs>) returns (ok: bool)
      modifies this
      ensures Reached(ok, R.CharsClosed(old(State()), target))
      ensures ok ==> curCharAttrs <= target
    {
      while !(curCharAttrs <= target)
        invariant R.CharsClosed(State(), target) == R.CharsClosed(old(State()), target)
        decreases |curCharAttrs|
      {
        ghost var before := State();
        var closed := EndChar();
        if !closed {
          assert R.CharsClosed(before, target) == R.CharsClosed(R.CharEnded(before), target);
          return false;
        }
      }
      ok := true;
    }

    /** Closes the characters that do not apply to the next op and opens those that are new. */
    method AlignChars(charAttrs: seq<Attrs>) returns (ok: bool)
      modifies this
      ensures Reached(ok, R.Aligned(old(State()), charAttrs))
    {
      ok := CloseChars(charAttrs);
      if !ok {
        return;
      }
      ghost var closed := State();
      var i := |curCharAttrs|;
      while i < |charAttrs|
        invariant |closed.chars| <= i <= |charAttrs|
        invariant State() == closed.(stack := childNodes)
        invariant R.Opened(closed.(stack := childNodes, chars := charAttrs[..i]), charAttrs)
          == R.Opened(closed, charAttrs)
      {
        ghost var here := closed.(stack := childNodes, chars := charAttrs[..i]);
        assert here.chars != charAttrs;
        childNodes := childNodes + [[]];
        i := i + 1;
      }
      assert charAttrs[..i] == charAttrs;
      curCharAttrs := charAttrs;
    }

    method EndRow() returns (ok: bool, nextBlockNodes: Option<seq<Node>>)
      modifies this
      ensures Reached(ok, R.RowEnded(old(State())).0) && nextBlockNodes == R.RowEnded(old(State())).1
    {
      nextBlockNodes := None;
      if |childNodes| > 3 || |childNodes| < 2 {
        return false, None;
      }
      if |childNodes| == 3 {
        nextBlockNodes := Some(childNodes[2]);
        childNodes := childNodes[..2];
      }
      var rowElem := R.Container("row", map["style" := "tr"], childNodes[1]);
      childNodes := [childNodes[0] + [rowElem]];
      curRowAttrs := None;
      ok := true;
    }

    method EndTable() returns (ok: bool)
      modifies this
      ensures Reached(ok, R.TableEnded(old(State())))
    {
      if childNodes == [] || curTableAttrs.None? {
        return false;
      }
      content := content + [R.Container("table", curTableAttrs.value, childNodes[|childNodes| - 1])];
      childNodes := childNodes[..|childNodes| - 1] + [[]];
      curTableAttrs := None;
      ok := true;
    }

    method LeaveTable() returns (ok: bool)
      modifies this
      ensures Reached(ok, R.TableLeft(old(State())))
    {
      var next;
      ok, next := EndRow();
      if ok {
        ok := EndTable();
      }
      if !ok || next.None? || childNodes == [] {
        return false;
      }
      childNodes := childNodes[..|childNodes| - 1] + [childNodes[|childNodes| - 1] + next.value];
    }

    /** Ends the open row and table if the next cell belongs to others. */
    method CloseRows(tableAttrs: Attrs, rowAttrs: Option<Attrs>) returns (ok: bool)
      modifies this
      ensures Reached(ok, R.RowsClosed(old(State()), tableAttrs, rowAttrs))
    {
      ok := true;
      if curTableAttrs.Some? {
        if rowAttrs.None? || curRowAttrs.None? {
          return false;
        }
        if Lookup(rowAttrs.value, "id") != Lookup(curRowAttrs.value, "id") {
          var next;
          ok, next := EndRow();
        }
        if ok && Lookup(tableAttrs, "id") != Lookup(curTableAttrs.value, "id") {
          ok := EndTable();
        }
      }
    }

    /** A cell needs a table and a row to go into. */
    method PadToRow()
      modifies this`childNodes
      ensures State() == R.PaddedTo2(old(State())) && |childNodes| >= 2
    {
      while |childNodes| < 2
        invariant R.PaddedTo2(State()) == R.PaddedTo2(old(State()))
        decreases 2 - |childNodes|
      {
        assert R.Push(State()) == State().(stack := childNodes + [[]]);
        childNodes := childNodes + [[]];
      }
    }

    method AddCell(cellElem: Node, tableAttrs: Attrs, rowAttrs: Option<Attrs>)
      modifies this
      ensures State() == R.CellAdded(old(State()), cellElem, tableAttrs, rowAttrs)
    {
      PadToRow();
      childNodes := childNodes[..|childNodes| - 1] + [childNodes[|childNodes| - 1] + [cellElem]];
      childNodes := childNodes + [[]];
      curTableAttrs, curRowAttrs := Some(tableAttrs), rowAttrs;
    }

    method EndCell(tableAttrs: Attrs, rowAttrs: Option<Attrs>, cellAttrs: Option<Attrs>) returns (ok: bool)
      modifies this
      ensures Reached(ok, R.CellEnded(old(State()), tableAttrs, rowAttrs, cellAttrs))
    {
      hide R.RowsClosed, R.Container;
      if childNodes == [] {
        return false;
      }
      var top := childNodes[|childNodes| - 1];
      var cellElem;
      if cellAttrs.Some? {
        cellElem := R.Container("cell", cellAttrs.value, top);
      } else if |top| == 1 && top[0].Elem? {
        cellElem := top[0];
      } else {
        return false;
      }
      childNodes := childNodes[..|childNodes| - 1];
      ok := CloseRows(tableAttrs, rowAttrs);
      if !ok {
        return;
      }
      AddCell(cellElem, tableAttrs, rowAttrs);
    }

    method TrackTable(text: string, fmt: Fmt) returns (ok: bool)
      modifies this
      ensures Reached(ok, R.TableTracked(old(State()), text, fmt))
    {
      ok := true;
      if curTableAttrs.Some? && fmt.table.None? && text == "\n" {
        ok := LeaveTable();
      } else if fmt.table.Some? {
        ok := EndCell(fmt.table.value, fmt.row, fmt.cell);
      }
    }

    method ReadPlainText(text: string) returns (ok: bool)
      modifies this
      ensures Reached(ok, R.PlainTextRead(old(State()), text))
    {
      if childNodes == [] {
        return false;
      }
      ok := true;
      if text != "" && text[|text| - 1] == '\n' {
        if |text| > 1 {
          ok := AddNode(Text(R.WithoutLineBreaks(text)));
        }
        content := content + childNodes[|childNodes| - 1];
        childNodes := childNodes[..|childNodes| - 1] + [[]];
      } else {
        ok := AddNode(Text(text));
      }
    }

    /** The end of a `book` or `para`, once for each line break in the op. */
    method ReadBlock(block: Block, length: nat) returns (ok: bool)
      modifies this
      ensures Reached(ok, R.BlockRead(old(State()), block, length))
    {
      if childNodes == [] {
        return false;
      }
      var elem := R.Container(block.name, block.attrs, childNodes[|childNodes| - 1]);
      ghost var before := State();
      var j := 0;
      while j < length
        invariant 0 <= j <= length
        invariant content + R.Repeated(elem, length - j) == old(content) + R.Repeated(elem, length)
        invariant State() == before.(content := content)
      {
        assert content + [elem] + R.Repeated(elem, length - j - 1) == content + R.Repeated(elem, length - j);
        content := content + [elem];
        j := j + 1;
      }
      assert content + R.Repeated(elem, 0) == content;
      childNodes := childNodes[..|childNodes| - 1] + [[]];
      ok := true;
    }

    method ReadFormattedText(text: string, fmt: Fmt) returns (ok: bool)
      modifies this
      ensures Reached(ok, R.FormattedTextRead(old(State()), text, fmt))
    {
      ok := true;
      if fmt.block.Some? {
        ok := ReadBlock(fmt.block.value, |text|);
      }
      if ok && fmt.ref.Some? {
        ok := AddNode(R.Container("ref", fmt.ref.value, [Text(text)]));
      }
      if ok && fmt.chars != [] && fmt.ref.None? {
        ok := AddNode(Text(text));
      }
      if ok && fmt.segment.Some? && fmt == PLAIN.(segment := fmt.segment) {
        ok := AddNode(Text(text));
      }
    }

    method ReadText(text: string, fmt: Fmt) returns (ok: bool)
      modifies this
      ensures Reached(ok, R.TextRead(old(State()), text, fmt))
    {
      ok := TrackTable(text, fmt);
      if ok {
        if fmt == PLAIN {
          ok := ReadPlainText(text);
        } else {
          ok := ReadFormattedText(text, fmt);
        }
      }
    }

    method ReadChapter(attrs: Attrs) returns (ok: bool)
      modifies this
      ensures Reached(ok, R.ChapterRead(old(State()), attrs))
    {
      ok := true;
      if curTableAttrs.Some? {
        var next;
        ok, next := EndRow();
        if ok {
          ok := EndTable();
        }
      }
      if ok {
        content := content + [R.Container("chapter", attrs, [])];
      }
    }

    method ReadOp(op: Op) returns (ok: bool)
      modifies this
      ensures Reached(ok, R.Step(old(State()), op))
      decreases op, 1
    {
      ok := AlignChars(op.fmt.chars);
      if !ok {
        return;
      }
      match op.insert {
        case Str(text) => ok := ReadText(text, op.fmt);
        case Blank =>
        case Empty =>
        case Embed(name, attrs, contents) =>
          if name == "chapter" {
            ok := ReadChapter(attrs);
          } else if name != "blank" && name != "empty" {
            var kids := ReadDelta(contents);
            if kids.None? {
              return false;
            }
            ok := AddNode(R.Container(name, attrs, kids.value));
          }
      }
    }

    /** Closes everything that is still open and gives the finished nodes. */
    method Finish() returns (r: Option<seq<Node>>)
      modifies this
      ensures r == R.Finished(old(State()))
    {
      var ok := CloseChars([]);
      if ok && curTableAttrs.Some? {
        var next;
        ok, next := EndRow();
        if ok {
          ok := EndTable();
        }
      }
      if !ok || childNodes == [] {
        return None;
      }
      content := content + childNodes[|childNodes| - 1];
      return Some(content);
    }
  }

  /** The nodes a delta describes, or nothing if reading it throws. */
  method ReadDelta(ops: seq<Op>) returns (r: Option<seq<Node>>)
    ensures r == R.ProcessDelta(ops)
    decreases ops, 0
  {
    var builder := new UsxBuilder();
    var i := 0;
    while i < |ops|
      invariant 0 <= i <= |ops| && fresh(builder)
      invariant builder.State() == R.Run(ops[..i])
    {
      assert ops[..i + 1][..i] == ops[..i];
      var ok := builder.ReadOp(ops[i]);
      i := i + 1;
      if !ok {
        R.FaultStays(ops, i);
        return None;
      }
    }
    assert ops[..i] == ops;
    r := builder.Finish();
  }
}
