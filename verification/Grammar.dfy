/**
 * Of what books are made, and which of them survive the trip through chapter deltas. Validation results are arbitrary.
 */
module Grammar {
  import opened Wrappers
  import opened UsxNodes

  /** Attribute names that the mapper reserves for itself. */
  predicate PlainAttrs(a: Attrs) {
    "id" !in a && "invalid" !in a && "contents" !in a
  }

  predicate TextContent(s: string) {
    s != "" && '\n' !in s
  }

  /** Element names the mapper gives a meaning of their own, inside a paragraph or a note. */
  const STRUCTURAL := {"para", "table", "cell", "chapter", "blank", "empty"}

  predicate Inline(n: Node, inChar: bool) {
    match n
    case Text(v) => TextContent(v)
    case Elem(name, attrs, kids, _) =>
      PlainAttrs(attrs)
      && (if name == "ref" then |kids| == 1 && kids[0].Text? && TextContent(kids[0].value)
          else if name == "verse" then !inChar && kids == []
          else if name == "char" then "cid" !in attrs && Inlines(kids, true)
          else name !in STRUCTURAL && Inlines(kids, false))
  }

  /** Neighbours that would run together into one op. */
  predicate Apart(a: Node, b: Node) {
    !(a.Text? && b.Text?) && !(IsElement(a, "ref") && IsElement(b, "ref") && a.attrs == b.attrs)
  }

  predicate Inlines(ns: seq<Node>, inChar: bool) {
    ns == [] || (Inline(ns[0], inChar) && Inlines(ns[1..], inChar) && (|ns| > 1 ==> Apart(ns[0], ns[1])))
  }

  /** A cell, or a single element standing where a cell is expected. */
  predicate Cell(n: Node) {
    n.Elem? && (if n.name == "cell" then PlainAttrs(n.attrs) && Inlines(n.kids, false) else Inline(n, false))
  }

  predicate Cells(ns: seq<Node>) {
    ns == [] || (Cell(ns[0]) && Cells(ns[1..]))
  }

  predicate Row(n: Node) {
    IsElement(n, "row") && n.attrs == map["style" := "tr"] && n.kids != [] && Cells(n.kids)
  }

  predicate Rows(ns: seq<Node>) {
    ns == [] || (Row(ns[0]) && Rows(ns[1..]))
  }

  predicate TopLevel(n: Node) {
    n.Elem? && PlainAttrs(n.attrs)
    && (if n.name == "para" || n.name == "book" then "style" in n.attrs && Inlines(n.kids, false)
        else if n.name == "chapter" then "number" in n.attrs && n.kids == []
        else n.name == "table" && n.kids != [] && Rows(n.kids))
  }

  // ----- loose nodes

  /** What may stand at the top level outside any paragraph. */
  predicate Loose(n: Node) {
    Inline(n, false) && !IsElement(n, "book")
  }

  /** Only these make the walk close what is loose with a line break. */
  predicate StartsImplied(n: Node) {
    n.Text? || n.name == "verse" || n.name == "note"
  }

  predicate HasImplied(ns: seq<Node>) {
    exists i :: 0 <= i < |ns| && StartsImplied(ns[i])
  }

  predicate HasVerse(ns: seq<Node>) {
    exists i :: 0 <= i < |ns| && IsElement(ns[i], "verse")
  }

  predicate IsBlock(n: Node) {
    n.Elem? && n.name in {"para", "book", "chapter", "table"}
  }

  /** Blocks of the grammar with loose nodes between them. `last` is the loose node just before, if there is one. */
  predicate Composed(ns: seq<Node>, last: Option<Node>)
    decreases |ns|
  {
    ns == [] ||
    (if IsBlock(ns[0]) then TopLevel(ns[0]) && Composed(ns[1..], None)
     else Loose(ns[0]) && (last.Some? ==> Apart(last.value, ns[0])) && Composed(ns[1..], Some(ns[0])))
  }

  /**
   * Whether a run of loose nodes comes back. `next` is the block that follows it in its section. A run that asks for a
   * line break must stand before a `para` or `book` or at the section's end; directly after a table it must not end in
   * text unless there is a verse in it. A run that does not must stand at the end, and not after a table.
   */
  predicate RunStands(run: seq<Node>, afterTable: bool, next: Option<Node>) {
    run == [] ||
    (if HasImplied(run) then
       (next.Some? ==> IsElement(next.value, "para") || IsElement(next.value, "book"))
       && (afterTable && run[|run| - 1].Text? ==> HasVerse(run))
     else next.None? && !afterTable)
  }

  /**
   * What has been seen of a section: whether all runs so far stand, the run since the last block, if that is a table.
   */
  datatype Scan = Scan(stands: bool, run: seq<Node>, afterTable: bool)

  function ScanNext(s: Scan, n: Node): Scan {
    if IsBlock(n) then Scan(s.stands && RunStands(s.run, s.afterTable, Some(n)), [], n.name == "table")
    else s.(run := s.run + [n])
  }

  function Scanned(ns: seq<Node>): Scan {
    if ns == [] then Scan(true, [], false) else ScanNext(Scanned(ns[..|ns| - 1]), ns[|ns| - 1])
  }

  /** Whether every run of loose nodes in a section comes back. */
  predicate SectionStands(ns: seq<Node>) {
    var s := Scanned(ns);
    s.stands && RunStands(s.run, s.afterTable, None)
  }
}
