/** What the walk over a table passes over: text between cells, and everything between rows. */
module TableChildren {
  import opened UsxNodes
  import opened ChapterWalk

  function Elements(ns: seq<Node>): seq<Node> {
    if ns == [] then [] else (if ns[0].Elem? then [ns[0]] else []) + Elements(ns[1..])
  }

  function RowElements(ns: seq<Node>): seq<Node> {
    if ns == [] then [] else (if IsElement(ns[0], "row") then [ns[0]] else []) + RowElements(ns[1..])
  }

  /** Text between cells changes nothing, not even the numbers of the cells. */
  lemma {:induction false} TextBetweenCells(cells: seq<Node>, w: Walk, t: nat, table: Attrs, r: nat, c: nat,
                                            invalid: bool)
    ensures WalkCells(cells, w, t, table, r, c, invalid) == WalkCells(Elements(cells), w, t, table, r, c, invalid)
    decreases cells
  {
    hide WalkCell;
    if cells != [] {
      if cells[0].Text? {
        TextBetweenCells(cells[1..], w, t, table, r, c, invalid);
        assert Elements(cells) == Elements(cells[1..]);
      } else {
        TextBetweenCells(cells[1..], WalkCell(cells[0], w, t, table, r, c, invalid), t, table, r, c + 1, invalid);
        assert Elements(cells)[1..] == Elements(cells[1..]);
      }
    }
  }

  /** Nor does anything between the rows change the numbers of the rows. */
  lemma {:induction false} NodesBetweenRows(rows: seq<Node>, w: Walk, table: Attrs, r: nat, invalid: bool)
    ensures WalkRows(rows, w, table, r, invalid) == WalkRows(RowElements(rows), w, table, r, invalid)
    decreases rows
  {
    hide WalkCells;
    if rows != [] {
      if IsElement(rows[0], "row") {
        var w1 := WalkCells(rows[0].kids, w, w.tableIndex, table, r, 1, invalid || rows[0].invalid);
        NodesBetweenRows(rows[1..], w1, table, r + 1, invalid);
        assert RowElements(rows)[1..] == RowElements(rows[1..]);
      } else {
        NodesBetweenRows(rows[1..], w, table, r, invalid);
        assert RowElements(rows) == RowElements(rows[1..]);
      }
    }
  }
}
